/**
 * The DOT parser of src/fsm/dot.rs and its copy in src/fsm/dot/parse.rs:
 * a `digraph` of state declarations `a;` and transitions
 * `a -> b [label="role!label"];`, read from a token stream that can be
 * peeked one token ahead. It stops at the first error.
 *
 * The lexer's regular expressions are not modelled: the parser reads the
 * tokens the lexer hands over, each with its kind, its value and the
 * source text it was read from.
 */
module DotParse {
  import opened Wrappers
  import opened DotTokens
  import Machine
  import Normalize

  /** A token: its kind, its value (an identifier's text, unescaped) and the source text it was read from. */
  datatype Lexeme = Lexeme(kind: TokenId, text: string, slice: string)

  datatype ParseError =
    | UnexpectedToken(expected: seq<TokenId>, actual: Option<string>)
    | DuplicateState(state: string)
    | DuplicateTransition
    | UndefinedState(state: string)
    | TransitionFailed(error: Machine.TransitionError)

  /** Kinds that an error message can name. */
  predicate Nameable(expected: seq<TokenId>) {
    expected != [] && forall i :: 0 <= i < |expected| ==> expected[i] != Error
  }

  /** `Display for UnexpectedTokenError` and the messages of the other errors. */
  function ErrorText(e: ParseError): string
    requires e.UnexpectedToken? ==> Nameable(e.expected)
  {
    match e
    case UnexpectedToken(expected, actual) => UnexpectedText(Names(expected), actual)
    case DuplicateState(s) => "state '" + s + "' is defined multiple times"
    case DuplicateTransition => "the same transition is defined multiple times"
    case UndefinedState(s) => "state '" + s + "' has not been defined"
    case TransitionFailed(t) => Machine.TransitionErrorText(t)
  }

  /** The message of an unexpected token, given the names of the expected kinds. */
  function UnexpectedText(names: seq<string>, actual: Option<string>): string
    requires names != []
  {
    ExpectedText(names) + " but found " + (match actual case Some(a) => "'" + a + "'" case None => Name(Eoi))
  }

  /** The message names the expected kinds, then what was found instead: the text in quotes, or the end of input. */
  lemma UnexpectedTextShape(names: seq<string>, actual: Option<string>)
    requires names != []
    ensures actual.Some? ==> UnexpectedText(names, actual) == ExpectedText(names) + " but found '" + actual.value + "'"
    ensures actual.None? ==> UnexpectedText(names, actual) == ExpectedText(names) + " but found end of input"
  {
    if actual.Some? {
      assert " but found '" == " but found " + "'";
    }
  }

  // ---------------------------------------------------------------------
  // Transition labels

  predicate IsAction(c: char) {
    c == '?' || c == '!'
  }

  predicate NoAction(s: string) {
    forall i :: 0 <= i < |s| ==> !IsAction(s[i])
  }

  /** `memchr2_iter(b'?', b'!', ..)`: the positions of `?` and `!` in `s[lo..hi]`, in increasing order. */
  function ActionPositions(s: string, lo: nat, hi: nat): (ps: seq<nat>)
    requires lo <= hi <= |s|
    ensures forall k :: 0 <= k < |ps| ==> lo <= ps[k] < hi
    decreases hi - lo
  {
    if lo == hi then [] else (if IsAction(s[lo]) then [lo] else []) + ActionPositions(s, lo + 1, hi)
  }

  /** Every position found holds a `?` or `!`. */
  lemma {:induction false} PositionsActions(s: string, lo: nat, hi: nat)
    requires lo <= hi <= |s|
    ensures forall k :: 0 <= k < |ActionPositions(s, lo, hi)| ==> IsAction(s[ActionPositions(s, lo, hi)[k]])
    decreases hi - lo
  {
    if lo < hi {
      PositionsActions(s, lo + 1, hi);
      var rest := ActionPositions(s, lo + 1, hi);
      var ps := ActionPositions(s, lo, hi);
      assert ps == (if IsAction(s[lo]) then [lo] else []) + rest;
      forall k | 0 <= k < |ps| ensures IsAction(s[ps[k]]) {
        if !IsAction(s[lo]) {
          assert ps[k] == rest[k];
        } else if k == 0 {
          assert ps[k] == lo;
        } else {
          assert ps[k] == rest[k - 1];
        }
      }
    }
  }

  /** Every `?` or `!` in the range is found. */
  lemma {:induction false} PositionsComplete(s: string, lo: nat, hi: nat)
    requires lo <= hi <= |s|
    ensures forall i :: lo <= i < hi && IsAction(s[i]) ==> i in ActionPositions(s, lo, hi)
    decreases hi - lo
  {
    if lo < hi {
      PositionsComplete(s, lo + 1, hi);
      var rest := ActionPositions(s, lo + 1, hi);
      var ps := ActionPositions(s, lo, hi);
      forall i | lo <= i < hi && IsAction(s[i]) ensures i in ps {
        if i == lo {
          assert ps[0] == lo;
        } else {
          assert i in rest;
        }
      }
    }
  }

  /** The positions are found in increasing order. */
  lemma {:induction false} PositionsIncreasing(s: string, lo: nat, hi: nat)
    requires lo <= hi <= |s|
    ensures forall a, b :: 0 <= a < b < |ActionPositions(s, lo, hi)| ==> ActionPositions(s, lo, hi)[a] < ActionPositions(s, lo, hi)[b]
    decreases hi - lo
  {
    if lo < hi {
      PositionsIncreasing(s, lo + 1, hi);
      var rest := ActionPositions(s, lo + 1, hi);
      var ps := ActionPositions(s, lo, hi);
      assert ps == (if IsAction(s[lo]) then [lo] else []) + rest;
      if IsAction(s[lo]) {
        forall a, b | 0 <= a < b < |ps| ensures ps[a] < ps[b] {
          assert ps[b] == rest[b - 1];
          if a > 0 {
            assert ps[a] == rest[a - 1];
          }
        }
      }
    }
  }

  /** The positions found are exactly those of `?` and `!` in the range, in increasing order. */
  lemma PositionsExact(s: string, lo: nat, hi: nat)
    requires lo <= hi <= |s|
    ensures var ps := ActionPositions(s, lo, hi);
      && (forall k :: 0 <= k < |ps| ==> IsAction(s[ps[k]]))
      && (forall i :: lo <= i < hi && IsAction(s[i]) ==> i in ps)
      && (forall a, b :: 0 <= a < b < |ps| ==> ps[a] < ps[b])
  {
    PositionsActions(s, lo, hi);
    PositionsComplete(s, lo, hi);
    PositionsIncreasing(s, lo, hi);
  }

  /** When one position is found, it holds the only `?` or `!` in the range. */
  lemma PositionsOne(s: string, lo: nat, hi: nat)
    requires lo <= hi <= |s| && |ActionPositions(s, lo, hi)| == 1
    ensures var i := ActionPositions(s, lo, hi)[0];
      && lo <= i < hi && IsAction(s[i])
      && forall p :: lo <= p < hi && p != i ==> !IsAction(s[p])
  {
    PositionsActions(s, lo, hi);
    PositionsComplete(s, lo, hi);
  }

  lemma {:induction false} PositionsNone(s: string, lo: nat, hi: nat)
    requires lo <= hi <= |s| && forall p :: lo <= p < hi ==> !IsAction(s[p])
    ensures ActionPositions(s, lo, hi) == []
    decreases hi - lo
  {
    if lo < hi {
      PositionsNone(s, lo + 1, hi);
    }
  }

  /** A single `?` or `!` in the range is the only position found. */
  lemma {:induction false} PositionsSingle(s: string, lo: nat, hi: nat, i: nat)
    requires lo <= i < hi <= |s| && IsAction(s[i])
    requires forall p :: lo <= p < hi && p != i ==> !IsAction(s[p])
    ensures ActionPositions(s, lo, hi) == [i]
    decreases hi - lo
  {
    if lo == i {
      PositionsNone(s, lo + 1, hi);
    } else {
      PositionsSingle(s, lo + 1, hi, i);
    }
  }

  /**
   * `parse_transition`: `role?label` or `role!label`. The `?` or `!` must
   * be the only one strictly inside the text, so the role and the label
   * are never empty.
   */
  function ParseTransition(input: string): (r: Option<Machine.Transition<string, string>>)
    ensures |input| < 3 ==> r.None?
    ensures r.Some? ==> |r.value.role| > 0 && |r.value.message| > 0 && |r.value.role| + 1 + |r.value.message| == |input|
  {
    if |input| < 3 then None
    else
      var ps := ActionPositions(input, 1, |input| - 1);
      if |ps| != 1 then None
      else
        var i := ps[0];
        Some(Machine.Transition(input[..i], if input[i] == '?' then Machine.Input else Machine.Output, input[i + 1..]))
  }

  /** `role`, `?` or `!`, then `label`: the text `Display for Transition` prints. */
  function TransitionText(t: Machine.Transition<string, string>): string {
    t.role + Machine.ActionText(t.action) + t.message
  }

  /** The role and label conditions under which `parse_transition` reads a text back. */
  predicate Readable(t: Machine.Transition<string, string>) {
    |t.role| > 0 && |t.message| > 0 && NoAction(t.role[1..]) && NoAction(t.message[..|t.message| - 1])
  }

  /**
   * What `parse_transition` accepts, both ways: it reads `t` exactly from
   * the text of `t`, provided the role and the label are not empty and
   * have no `?` or `!` where the search looks (everywhere but the first
   * character of the role and the last of the label).
   */
  lemma ParseTransitionExact(input: string, t: Machine.Transition<string, string>)
    ensures ParseTransition(input) == Some(t) <==> Readable(t) && input == TransitionText(t)
  {
    if ParseTransition(input) == Some(t) {
      ParseTransitionSound(input);
    }
    if Readable(t) && input == TransitionText(t) {
      ParseTransitionComplete(t);
    }
  }

  /** A transition read from a text prints back as that text. */
  lemma ParseTransitionSound(input: string)
    requires ParseTransition(input).Some?
    ensures Readable(ParseTransition(input).value) && input == TransitionText(ParseTransition(input).value)
  {
    var t := ParseTransition(input).value;
    var i := ActionPositions(input, 1, |input| - 1)[0];
    PositionsOne(input, 1, |input| - 1);
    assert input == input[..i] + [input[i]] + input[i + 1..];
    forall j | 0 <= j < |t.role[1..]| ensures !IsAction(t.role[1..][j]) {
      assert t.role[1..][j] == input[j + 1];
    }
    var body := t.message[..|t.message| - 1];
    forall j | 0 <= j < |body| ensures !IsAction(body[j]) {
      assert body[j] == input[i + 1 + j];
    }
  }

  /** The text of a readable transition is read back as that transition. */
  lemma ParseTransitionComplete(t: Machine.Transition<string, string>)
    requires Readable(t)
    ensures ParseTransition(TransitionText(t)) == Some(t)
  {
    var input := TransitionText(t);
    var i := |t.role|;
    assert input[i] == Machine.ActionText(t.action)[0];
    forall p | 1 <= p < |input| - 1 && p != i ensures !IsAction(input[p]) {
      if p < i {
        assert input[p] == t.role[1..][p - 1];
      } else {
        assert input[p] == t.message[..|t.message| - 1][p - i - 1];
      }
    }
    PositionsSingle(input, 1, |input| - 1, i);
    assert input[..i] == t.role && input[i + 1..] == t.message;
  }

  // ---------------------------------------------------------------------
  // Quoted identifiers

  /** A `\"` pair starts at `i`. */
  predicate StartsPair(s: string, i: nat) {
    i + 1 < |s| && s[i] == '\\' && s[i + 1] == '"'
  }

  /** The value of a quoted identifier's inner text: each `\"` stands for `"`, everything else for itself. */
  function Unescape(s: string): (r: string)
    ensures |r| <= |s|
  {
    if s == [] then []
    else if StartsPair(s, 0) then "\"" + Unescape(s[2..])
    else [s[0]] + Unescape(s[1..])
  }

  /** The inverse: a backslash before every `"`. */
  function Escape(s: string): string {
    if s == [] then [] else (if s[0] == '"' then "\\\"" else [s[0]]) + Escape(s[1..])
  }

  /** Unescaping undoes escaping, for every text. */
  lemma {:induction false} UnescapeEscape(s: string)
    ensures Unescape(Escape(s)) == s
  {
    if s != [] {
      UnescapeEscape(s[1..]);
      var e := Escape(s[1..]);
      if s[0] == '"' {
        assert Escape(s) == "\\\"" + e;
        assert (Escape(s))[2..] == e;
      } else {
        assert Escape(s) == [s[0]] + e;
        assert Escape(s)[1..] == e;
        if s[0] == '\\' {
          EscapeStart(s[1..]);
        }
      }
    }
  }

  /** An escaped text never starts with a quote. */
  lemma EscapeStart(s: string)
    ensures Escape(s) != [] ==> Escape(s)[0] != '"'
  {
  }

  /** Text with no `\"` pair before `j` unescapes to itself up to `j`. */
  lemma {:induction false} UnescapePlain(s: string, j: nat)
    requires j <= |s|
    requires forall i :: 0 <= i < j ==> !StartsPair(s, i)
    ensures Unescape(s) == s[..j] + Unescape(s[j..])
  {
    if j > 0 {
      assert !StartsPair(s, 0);
      forall i | 0 <= i < j - 1 ensures !StartsPair(s[1..], i) {
        assert !StartsPair(s, i + 1);
      }
      UnescapePlain(s[1..], j - 1);
      assert s[1..][j - 1..] == s[j..];
      assert s[..j] == [s[0]] + s[1..][..j - 1];
    }
  }

  /** Text with no quote at all unescapes to itself. */
  lemma NoQuoteUnescape(s: string)
    requires forall i :: 0 <= i < |s| ==> s[i] != '"'
    ensures Unescape(s) == s
  {
    UnescapePlain(s, |s|);
    assert s[..|s|] == s;
  }

  /**
   * What the lexer's rule for quoted identifiers guarantees `literal`:
   * quotes around the text, the text does not start with a quote, and
   * every quote inside it follows a backslash.
   */
  predicate QuotedForm(raw: string) {
    |raw| >= 2 && raw[0] == '"' && raw[|raw| - 1] == '"'
    && (|raw| > 2 ==> raw[1] != '"')
    && forall p :: 2 <= p < |raw| - 1 && raw[p] == '"' ==> raw[p - 1] == '\\'
  }

  /**
   * `literal`: strips the outer quotes and turns every `\"` into `"`. The
   * loop visits each inner quote; each one drops the backslash before it.
   */
  method Literal(raw: string) returns (value: string)
    requires QuotedForm(raw)
    ensures value == Unescape(raw[1..|raw| - 1])
  {
    var slice := raw[1..|raw| - 1];
    if slice == [] {
      return slice;
    }
    var result := "";
    var lastEnd := 0;
    var k := 1;
    while k < |slice|
      invariant 1 <= k <= |slice| && lastEnd <= k
      invariant lastEnd == 0 <==> result == []
      invariant forall i :: lastEnd <= i < k ==> slice[i] != '"'
      invariant lastEnd > 0 ==> slice[lastEnd - 1] == '"'
      invariant result + Unescape(slice[lastEnd..]) == Unescape(slice)
    {
      if slice[k] == '"' {
        assert slice[k - 1] == '\\' by {
          assert raw[k + 1] == slice[k];
        }
        LiteralStep(slice, result, lastEnd, k);
        result := result + slice[lastEnd..k - 1] + "\"";
        lastEnd := k + 1;
      }
      k := k + 1;
    }
    LiteralTail(slice, result, lastEnd);
    if result == [] {
      return slice;
    }
    value := result + slice[lastEnd..|slice|];
  }

  /** After the last quote the rest of the text is plain, so it is its own value. */
  lemma LiteralTail(s: string, result: string, lastEnd: nat)
    requires lastEnd <= |s| && forall i :: lastEnd <= i < |s| ==> s[i] != '"'
    requires result + Unescape(s[lastEnd..]) == Unescape(s)
    ensures result + s[lastEnd..] == Unescape(s)
  {
    forall i | 0 <= i < |s[lastEnd..]| ensures s[lastEnd..][i] != '"' {
      assert s[lastEnd..][i] == s[lastEnd + i];
    }
    NoQuoteUnescape(s[lastEnd..]);
  }

  /** One quote of the loop: the plain text up to its backslash, then the quote itself. */
  lemma LiteralStep(s: string, result: string, lastEnd: nat, k: nat)
    requires lastEnd < k < |s| && s[k] == '"' && s[k - 1] == '\\'
    requires forall i :: lastEnd <= i < k ==> s[i] != '"'
    requires result + Unescape(s[lastEnd..]) == Unescape(s)
    ensures (result + s[lastEnd..k - 1] + "\"") + Unescape(s[k + 1..]) == Unescape(s)
  {
    LiteralPiece(s, lastEnd, k);
  }

  lemma LiteralPiece(s: string, lastEnd: nat, k: nat)
    requires lastEnd < k < |s| && s[k] == '"' && s[k - 1] == '\\'
    requires forall i :: lastEnd <= i < k ==> s[i] != '"'
    ensures Unescape(s[lastEnd..]) == s[lastEnd..k - 1] + "\"" + Unescape(s[k + 1..])
  {
    var t := s[lastEnd..];
    forall i | 0 <= i < k - 1 - lastEnd ensures !StartsPair(t, i) {
      assert t[i + 1] == s[lastEnd + i + 1];
    }
    UnescapePlain(t, k - 1 - lastEnd);
    assert t[..k - 1 - lastEnd] == s[lastEnd..k - 1];
    assert t[k - 1 - lastEnd..] == s[k - 1..];
    assert StartsPair(s[k - 1..], 0);
    assert s[k - 1..][2..] == s[k + 1..];
  }

  // ---------------------------------------------------------------------
  // The token stream

  /**
   * `PeekableLexer`: the lexer's remaining tokens, at most one token
   * taken from it ahead of time, and the source text of the token lexed
   * last (`slice`).
   */
  class PeekableLexer {
    var rest: seq<Lexeme>
    var peeked: Option<Option<Lexeme>>
    var slice: string

    /** Once the lexer has run out it stays out, and a peeked token is the one lexed last. */
    ghost predicate Valid()
      reads this
    {
      (peeked == Some(None) ==> rest == [])
      && (peeked.Some? && peeked.value.Some? ==> slice == peeked.value.value.slice)
    }

    /** The tokens still to come, the peeked one first. */
    ghost function Pending(): seq<Lexeme>
      reads this
    {
      match peeked
      case None => rest
      case Some(None) => []
      case Some(Some(t)) => [t] + rest
    }

    constructor (tokens: seq<Lexeme>)
      ensures Valid() && Pending() == tokens
    {
      rest := tokens;
      peeked := None;
      slice := [];
    }

    /** The lexer's own `next`. */
    method Lex() returns (t: Option<Lexeme>)
      modifies this
      ensures t == (if old(rest) == [] then None else Some(old(rest)[0]))
      ensures rest == (if old(rest) == [] then [] else old(rest)[1..])
      ensures t.Some? ==> slice == t.value.slice
      ensures t.None? ==> slice == old(slice)
      ensures peeked == old(peeked)
    {
      if rest == [] {
        return None;
      }
      t := Some(rest[0]);
      slice := rest[0].slice;
      rest := rest[1..];
    }

    /** `peek`: the next token, which stays pending. */
    method Peek() returns (t: Option<Lexeme>)
      requires Valid()
      modifies this
      ensures Valid() && Pending() == old(Pending())
      ensures t == (if Pending() == [] then None else Some(Pending()[0]))
    {
      if peeked.None? {
        var lexed := Lex();
        peeked := Some(lexed);
      }
      t := peeked.value;
    }

    /** `next`: the next token, the peeked one first; the text of a returned token is then `slice`. */
    method Next() returns (t: Option<Lexeme>)
      requires Valid()
      modifies this
      ensures Valid()
      ensures t == (if old(Pending()) == [] then None else Some(old(Pending())[0]))
      ensures Pending() == (if old(Pending()) == [] then [] else old(Pending())[1..])
      ensures t.Some? ==> slice == t.value.slice
    {
      match peeked
      case Some(p) =>
        peeked := None;
        t := p;
      case None =>
        t := Lex();
    }
  }

  // ---------------------------------------------------------------------
  // The grammar, as functions of the tokens still to come

  /** What remains after one token is taken; the end of input stays the end. */
  function Drop(ts: seq<Lexeme>): seq<Lexeme> {
    if ts == [] then [] else ts[1..]
  }

  /** `expect`: the next token must be of an expected kind; it is taken either way. */
  function ExpectOf(ts: seq<Lexeme>, expected: seq<TokenId>): Result<Lexeme, ParseError> {
    if ts == [] then Err(UnexpectedToken(expected, None))
    else if ts[0].kind in expected then Ok(ts[0])
    else Err(UnexpectedToken(expected, Some(ts[0].slice)))
  }

  /** `optional`: the next token is taken only when it is an expected kind. */
  function OptionalOf(ts: seq<Lexeme>, expected: seq<TokenId>): seq<Lexeme> {
    if ts != [] && ts[0].kind in expected then ts[1..] else ts
  }

  /** A result and the tokens left after it. */
  datatype Parsed<T> = Parsed(result: Result<T, ParseError>, rest: seq<Lexeme>)

  /** One entry of the body: `}`, a state `a;`, or a transition up to its label `a -> b [label=t`. */
  datatype Entry =
    | Close
    | Declare(name: string)
    | Connect(from: string, to: string, transition: Machine.Transition<string, string>)

  type Triple = (string, string, Machine.Transition<string, string>)

  /** The header `digraph role {`; its result is the role. */
  function HeaderOf(ts: seq<Lexeme>): (p: Parsed<string>)
    ensures |p.rest| <= |ts|
  {
    var digraph := ExpectOf(ts, [Digraph]);
    var ts1 := Drop(ts);
    if digraph.Err? then Parsed(Err(digraph.error), ts1)
    else
      var role := ExpectOf(ts1, [Identifier]);
      var ts2 := Drop(ts1);
      if role.Err? then Parsed(Err(role.error), ts2)
      else
        var brace := ExpectOf(ts2, [LeftBrace]);
        var ts3 := Drop(ts2);
        if brace.Err? then Parsed(Err(brace.error), ts3) else Parsed(Ok(role.value.text), ts3)
  }

  /** The start of an entry; every outcome takes at least one token unless the input has run out. */
  function EntryOf(ts: seq<Lexeme>): (p: Parsed<Entry>)
    ensures |p.rest| <= |ts| && (ts != [] ==> |p.rest| < |ts|)
  {
    var left := ExpectOf(ts, [RightBrace, Identifier]);
    var ts1 := Drop(ts);
    if left.Err? then Parsed(Err(left.error), ts1)
    else if left.value.kind == RightBrace then Parsed(Ok(Close), ts1)
    else
      var arrow := ExpectOf(ts1, [Semicolon, Arrow]);
      var ts2 := Drop(ts1);
      if arrow.Err? then Parsed(Err(arrow.error), ts2)
      else if arrow.value.kind == Semicolon then Parsed(Ok(Declare(left.value.text)), ts2)
      else
        var right := ExpectOf(ts2, [Identifier]);
        var ts3 := Drop(ts2);
        if right.Err? then Parsed(Err(right.error), ts3)
        else
          var square := ExpectOf(ts3, [LeftSquare]);
          var ts4 := Drop(ts3);
          if square.Err? then Parsed(Err(square.error), ts4)
          else
            var labelKey := ExpectOf(ts4, [Label]);
            var ts5 := Drop(ts4);
            if labelKey.Err? then Parsed(Err(labelKey.error), ts5)
            else
              var equal := ExpectOf(ts5, [Equal]);
              var ts6 := Drop(ts5);
              if equal.Err? then Parsed(Err(equal.error), ts6)
              else
                var value := ExpectOf(ts6, [Identifier]);
                var ts7 := Drop(ts6);
                if value.Err? then Parsed(Err(value.error), ts7)
                else
                  match ParseTransition(value.value.text)
                  case None => Parsed(Err(UnexpectedToken([Transition], Some(value.value.text))), ts7)
                  case Some(t) => Parsed(Ok(Connect(left.value.text, right.value.text, t)), ts7)
  }

  /** The end of a transition entry: an optional `,`, then `]` and `;`. */
  function TailOf(ts: seq<Lexeme>): (p: Parsed<()>)
    ensures |p.rest| <= |ts|
  {
    var ts1 := OptionalOf(ts, [Comma]);
    var square := ExpectOf(ts1, [RightSquare]);
    var ts2 := Drop(ts1);
    if square.Err? then Parsed(Err(square.error), ts2)
    else
      var semicolon := ExpectOf(ts2, [Semicolon]);
      var ts3 := Drop(ts2);
      if semicolon.Err? then Parsed(Err(semicolon.error), ts3) else Parsed(Ok(()), ts3)
  }

  /**
   * The entry loop. A state declared a second time and a transition
   * given a second time end the parse at once; the states are numbered
   * in declaration order.
   */
  function Collect(ts: seq<Lexeme>, states: map<string, nat>, transitions: seq<Triple>)
    : Parsed<(map<string, nat>, seq<Triple>)>
    decreases |ts|
  {
    var entry := EntryOf(ts);
    match entry.result
    case Err(e) => Parsed(Err(e), entry.rest)
    case Ok(Close) => Parsed(Ok((states, transitions)), entry.rest)
    case Ok(Declare(x)) =>
      if x in states then Parsed(Err(DuplicateState(x)), entry.rest)
      else Collect(entry.rest, states[x := |states|], transitions)
    case Ok(Connect(from, to, t)) =>
      if (from, to, t) in transitions then Parsed(Err(DuplicateTransition), entry.rest)
      else
        var tail := TailOf(entry.rest);
        if tail.result.Err? then Parsed(Err(tail.result.error), tail.rest)
        else Collect(tail.rest, states, transitions + [(from, to, t)])
  }

  /** The states numbered so far are the indices of the machine's states. */
  ghost predicate Numbers(g: Machine.Graph<string, string>, states: map<string, nat>) {
    forall x :: x in states ==> states[x] < |g.states|
  }

  /**
   * The transitions are added in the order they were collected; each
   * endpoint must have been declared, and the first failure is the result.
   */
  function Resolve(g: Machine.Graph<string, string>, states: map<string, nat>, ts: seq<Triple>)
    : (r: Result<Machine.Graph<string, string>, ParseError>)
    requires Numbers(g, states)
    ensures r.Ok? ==> r.value.role == g.role && |r.value.states| == |g.states|
    decreases |ts|
  {
    if ts == [] then Ok(g)
    else
      var (from, to, t) := ts[0];
      if from !in states then Err(UndefinedState(from))
      else if to !in states then Err(UndefinedState(to))
      else
        var (r, h) := Machine.AddTransitionTo(g, states[from], states[to], t);
        if r.Err? then Err(TransitionFailed(r.error)) else Resolve(h, states, ts[1..])
  }

  /** `n` fresh `End` states. */
  function Ends(n: nat): (s: seq<Machine.State<string>>)
    ensures |s| == n && forall i :: 0 <= i < n ==> s[i] == Machine.End
  {
    seq(n, _ => Machine.End)
  }

  /** The loop numbers the states `0 .. n` one to one. */
  lemma {:induction false} CollectDense(ts: seq<Lexeme>, states: map<string, nat>, transitions: seq<Triple>)
    requires Normalize.Dense(states)
    ensures var c := Collect(ts, states, transitions);
      c.result.Ok? ==> (Normalize.Dense(c.result.value.0) && states.Keys <= c.result.value.0.Keys
        && (forall x :: x in states ==> c.result.value.0[x] == states[x]))
    decreases |ts|
  {
    var entry := EntryOf(ts);
    match entry.result
    case Err(_) =>
    case Ok(Close) =>
    case Ok(Declare(x)) =>
      if x !in states {
        Normalize.InternDense(states, x);
        CollectDense(entry.rest, states[x := |states|], transitions);
      }
    case Ok(Connect(from, to, t)) =>
      if (from, to, t) !in transitions {
        var tail := TailOf(entry.rest);
        if tail.result.Ok? {
          CollectDense(tail.rest, states, transitions + [(from, to, t)]);
        }
      }
  }

  /**
   * The whole graph. `parse` of src/fsm/dot.rs also demands that nothing
   * follows the closing brace (`checkEnd`); `parse_one` of
   * src/fsm/dot/parse.rs leaves what follows to the next graph.
   */
  function GraphOf(ts: seq<Lexeme>, checkEnd: bool): (r: Parsed<Machine.Graph<string, string>>)
    ensures r.result.Ok? ==> HeaderOf(ts).result.Ok? && r.result.value.role == HeaderOf(ts).result.value
    ensures r.result.Ok? && checkEnd ==> r.rest == []
  {
    var header := HeaderOf(ts);
    if header.result.Err? then Parsed(Err(header.result.error), header.rest)
    else
      var collected := Collect(header.rest, map[], []);
      if collected.result.Err? then Parsed(Err(collected.result.error), collected.rest)
      else
        var (states, transitions) := collected.result.value;
        var g := Machine.Graph(header.result.value, Ends(|states|), []);
        if checkEnd && collected.rest != [] then
          Parsed(Err(UnexpectedToken([Eoi], Some(collected.rest[0].slice))), collected.rest[1..])
        else
          CollectDense(header.rest, map[], []);
          Parsed(Resolve(g, states, transitions), collected.rest)
  }

  // ---------------------------------------------------------------------
  // The parser

  /** `expect`. */
  method Expect(tokens: PeekableLexer, expected: seq<TokenId>) returns (r: Result<Lexeme, ParseError>)
    requires tokens.Valid()
    modifies tokens
    ensures tokens.Valid()
    ensures r == ExpectOf(old(tokens.Pending()), expected) && tokens.Pending() == Drop(old(tokens.Pending()))
  {
    var token := tokens.Next();
    match token
    case Some(t) =>
      if t.kind in expected {
        r := Ok(t);
      } else {
        r := Err(UnexpectedToken(expected, Some(tokens.slice)));
      }
    case None =>
      r := Err(UnexpectedToken(expected, None));
  }

  /** `optional`. */
  method Optional(tokens: PeekableLexer, expected: seq<TokenId>) returns (r: Option<Lexeme>)
    requires tokens.Valid()
    modifies tokens
    ensures tokens.Valid() && tokens.Pending() == OptionalOf(old(tokens.Pending()), expected)
    ensures r.Some? <==> old(tokens.Pending()) != [] && old(tokens.Pending())[0].kind in expected
    ensures r.Some? ==> r.value == old(tokens.Pending())[0]
  {
    var token := tokens.Peek();
    if token.Some? && token.value.kind in expected {
      r := tokens.Next();
    } else {
      r := None;
    }
  }

  /** The start of one entry of the loop in `parse`. */
  method ReadEntry(tokens: PeekableLexer) returns (r: Result<Entry, ParseError>)
    requires tokens.Valid()
    modifies tokens
    ensures tokens.Valid() && Parsed(r, tokens.Pending()) == EntryOf(old(tokens.Pending()))
  {
    var left := Expect(tokens, [RightBrace, Identifier]);
    if left.Err? {
      return Err(left.error);
    }
    if left.value.kind == RightBrace {
      return Ok(Close);
    }
    var arrow := Expect(tokens, [Semicolon, Arrow]);
    if arrow.Err? {
      return Err(arrow.error);
    }
    if arrow.value.kind == Semicolon {
      return Ok(Declare(left.value.text));
    }
    var right := Expect(tokens, [Identifier]);
    if right.Err? {
      return Err(right.error);
    }
    var square := Expect(tokens, [LeftSquare]);
    if square.Err? {
      return Err(square.error);
    }
    var labelKey := Expect(tokens, [Label]);
    if labelKey.Err? {
      return Err(labelKey.error);
    }
    var equal := Expect(tokens, [Equal]);
    if equal.Err? {
      return Err(equal.error);
    }
    var value := Expect(tokens, [Identifier]);
    if value.Err? {
      return Err(value.error);
    }
    match ParseTransition(value.value.text)
    case None =>
      r := Err(UnexpectedToken([Transition], Some(value.value.text)));
    case Some(t) =>
      r := Ok(Connect(left.value.text, right.value.text, t));
  }

  /** The end of a transition entry. */
  method ReadTail(tokens: PeekableLexer) returns (r: Result<(), ParseError>)
    requires tokens.Valid()
    modifies tokens
    ensures tokens.Valid() && Parsed(r, tokens.Pending()) == TailOf(old(tokens.Pending()))
  {
    var _ := Optional(tokens, [Comma]);
    var square := Expect(tokens, [RightSquare]);
    if square.Err? {
      return Err(square.error);
    }
    var semicolon := Expect(tokens, [Semicolon]);
    if semicolon.Err? {
      return Err(semicolon.error);
    }
    r := Ok(());
  }

  /** The machine of a successful parse, viewed as a value. */
  function ViewOf(r: Result<Machine.Fsm<string, string>, ParseError>): Result<Machine.Graph<string, string>, ParseError>
    reads if r.Ok? then {r.value} else {}
  {
    match r
    case Ok(fsm) => Ok(fsm.View())
    case Err(e) => Err(e)
  }

  /**
   * `parse` (src/fsm/dot.rs, `checkEnd`) and `parse_one`
   * (src/fsm/dot/parse.rs): the header, the entry loop, the check for
   * trailing tokens, then the transitions are added to the machine.
   */
  method Parse(tokens: PeekableLexer, checkEnd: bool) returns (r: Result<Machine.Fsm<string, string>, ParseError>)
    requires tokens.Valid()
    modifies tokens
    ensures tokens.Valid()
    ensures r.Ok? ==> fresh(r.value)
    ensures Parsed(ViewOf(r), tokens.Pending()) == GraphOf(old(tokens.Pending()), checkEnd)
  {
    ghost var ts := tokens.Pending();
    var digraph := Expect(tokens, [Digraph]);
    if digraph.Err? {
      return Err(digraph.error);
    }
    var role := Expect(tokens, [Identifier]);
    if role.Err? {
      return Err(role.error);
    }
    var fsm := new Machine.Fsm(role.value.text);
    var brace := Expect(tokens, [LeftBrace]);
    if brace.Err? {
      return Err(brace.error);
    }
    var collected := Entries(tokens, fsm);
    if collected.Err? {
      return Err(collected.error);
    }
    var (states, transitions) := collected.value;
    if checkEnd {
      var extra := tokens.Next();
      if extra.Some? {
        return Err(UnexpectedToken([Eoi], Some(tokens.slice)));
      }
    }
    CollectDense(HeaderOf(ts).rest, map[], []);
    r := AddTransitions(fsm, states, transitions);
  }

  /** The entry loop of `parse`: one state of `fsm` per declared name, and the transitions in order. */
  method Entries(tokens: PeekableLexer, fsm: Machine.Fsm<string, string>)
    returns (r: Result<(map<string, nat>, seq<Triple>), ParseError>)
    requires tokens.Valid() && fsm.View() == Machine.Graph(fsm.role, [], [])
    modifies tokens, fsm
    ensures tokens.Valid()
    ensures Parsed(r, tokens.Pending()) == Collect(old(tokens.Pending()), map[], [])
    ensures r.Ok? ==> fsm.View() == Machine.Graph(old(fsm.role), Ends(|r.value.0|), [])
  {
    ghost var body := tokens.Pending();
    var states: map<string, nat> := map[];
    var transitions: seq<Triple> := [];
    while true
      invariant tokens.Valid()
      invariant Normalize.Dense(states)
      invariant fsm.View() == Machine.Graph(old(fsm.role), Ends(|states|), [])
      invariant Collect(tokens.Pending(), states, transitions) == Collect(body, map[], [])
      decreases |tokens.Pending()|
    {
      var entry := ReadEntry(tokens);
      match entry
      case Err(e) =>
        return Err(e);
      case Ok(Close) =>
        break;
      case Ok(Declare(x)) =>
        if x in states {
          return Err(DuplicateState(x));
        }
        Normalize.InternDense(states, x);
        var s := fsm.AddState();
        assert Ends(|states|) + [Machine.End] == Ends(|states| + 1);
        states := states[x := s];
      case Ok(Connect(from, to, t)) =>
        if (from, to, t) in transitions {
          return Err(DuplicateTransition);
        }
        var tail := ReadTail(tokens);
        if tail.Err? {
          return Err(tail.error);
        }
        transitions := transitions + [(from, to, t)];
    }
    r := Ok((states, transitions));
  }

  /** The loop that adds the collected transitions, stopping at the first failure. */
  method AddTransitions(fsm: Machine.Fsm<string, string>, states: map<string, nat>, transitions: seq<Triple>)
    returns (r: Result<Machine.Fsm<string, string>, ParseError>)
    requires Machine.Valid(fsm.View()) && Numbers(fsm.View(), states)
    modifies fsm
    ensures r.Ok? ==> r.value == fsm
    ensures ViewOf(r) == Resolve(old(fsm.View()), states, transitions)
  {
    var i := 0;
    while i < |transitions|
      invariant 0 <= i <= |transitions|
      invariant Machine.Valid(fsm.View()) && Numbers(fsm.View(), states)
      invariant Resolve(fsm.View(), states, transitions[i..]) == Resolve(old(fsm.View()), states, transitions)
    {
      var (from, to, t) := transitions[i];
      assert transitions[i..][1..] == transitions[i + 1..];
      if from !in states {
        return Err(UndefinedState(from));
      }
      if to !in states {
        return Err(UndefinedState(to));
      }
      var added := fsm.AddTransition(states[from], states[to], t);
      if added.Err? {
        return Err(TransitionFailed(added.error));
      }
      i := i + 1;
    }
    assert transitions[i..] == [];
    r := Ok(fsm);
  }

  /** `ParseIter`: one parse per graph left in the input (src/fsm/dot/parse.rs). */
  class ParseIter {
    const tokens: PeekableLexer

    constructor (input: seq<Lexeme>)
      ensures tokens.Valid() && tokens.Pending() == input && fresh(tokens)
    {
      tokens := new PeekableLexer(input);
    }

    /** `next`: nothing once the input has run out, otherwise the next graph, which takes at least one token. */
    method Next() returns (r: Option<Result<Machine.Fsm<string, string>, ParseError>>)
      requires tokens.Valid()
      modifies tokens
      ensures tokens.Valid()
      ensures r.None? <==> old(tokens.Pending()) == []
      ensures r.Some? ==> Parsed(ViewOf(r.value), tokens.Pending()) == GraphOf(old(tokens.Pending()), false)
      ensures r.Some? ==> |tokens.Pending()| < |old(tokens.Pending())|
    {
      var token := tokens.Peek();
      if token.Some? {
        GraphOfConsumes(tokens.Pending(), false);
        var parsed := Parse(tokens, false);
        return Some(parsed);
      }
      r := None;
    }
  }

  /** Every parse of a non-empty input takes at least one token, so `ParseIter` ends. */
  lemma GraphOfConsumes(ts: seq<Lexeme>, checkEnd: bool)
    requires ts != []
    ensures |GraphOf(ts, checkEnd).rest| < |ts|
  {
    var header := HeaderOf(ts);
    if header.result.Ok? {
      CollectShrinks(header.rest, map[], []);
    }
  }

  lemma {:induction false} CollectShrinks(ts: seq<Lexeme>, states: map<string, nat>, transitions: seq<Triple>)
    ensures |Collect(ts, states, transitions).rest| <= |ts|
    decreases |ts|
  {
    var entry := EntryOf(ts);
    match entry.result
    case Err(_) =>
    case Ok(Close) =>
    case Ok(Declare(x)) =>
      if x !in states {
        CollectShrinks(entry.rest, states[x := |states|], transitions);
      }
    case Ok(Connect(from, to, t)) =>
      if (from, to, t) !in transitions {
        var tail := TailOf(entry.rest);
        if tail.result.Ok? {
          CollectShrinks(tail.rest, states, transitions + [(from, to, t)]);
        }
      }
  }
}
