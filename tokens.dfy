/**
 * The token kinds of the DOT lexers and of the transition lexer, with the
 * names their error messages use, and the `expected A, B or C` list those
 * messages print.
 */
module DotTokens {

  /**
   * One kind per token the lexers know. `Transition` is never lexed: it
   * names what a transition label was expected to be. `Eoi` is the end of
   * the input, and `Error` is any text no rule matches.
   */
  datatype TokenId =
    | Identifier | Boolean | Number | Digraph | Label
    | LeftRound | RightRound | LeftBrace | RightBrace | LeftSquare | RightSquare
    | LeftAngle | RightAngle | Question | Bang | Colon | Arrow | Comma | Semicolon
    | Equal | NotEqual | LessEqual | GreaterEqual | Plus | Minus | Star | Slash
    | Transition | Eoi | Error

  /** The name of a kind in an error message; `Error` has none. */
  function Name(id: TokenId): (s: string)
    requires id != Error
    ensures s != []
  {
    match id
    case Identifier => "an identifier"
    case Boolean => "a boolean"
    case Number => "a number"
    case Digraph => "'digraph'"
    case Label => "'label'"
    case LeftRound => "'('"
    case RightRound => "')'"
    case LeftBrace => "'{'"
    case RightBrace => "'}'"
    case LeftSquare => "'['"
    case RightSquare => "']'"
    case LeftAngle => "'<'"
    case RightAngle => "'>'"
    case Question => "'?'"
    case Bang => "'!'"
    case Colon => "':'"
    case Arrow => "'->'"
    case Comma => "','"
    case Semicolon => "';'"
    case Equal => "'='"
    case NotEqual => "'<>'"
    case LessEqual => "'<='"
    case GreaterEqual => "'>='"
    case Plus => "'+'"
    case Minus => "'-'"
    case Star => "'*'"
    case Slash => "'/'"
    case Transition => "a transition"
    case Eoi => "end of input"
  }

  /** A token kind with a name: every kind but `Error`. */
  type Kind = id: TokenId | id != Error witness Identifier

  /** Distinct kinds have distinct names, so a message names exactly the kinds it lists. */
  lemma NameInjective(a: TokenId, b: TokenId)
    requires a != Error && b != Error && Name(a) == Name(b)
    ensures a == b
  {
  }

  function Names(ids: seq<TokenId>): (names: seq<string>)
    requires forall i :: 0 <= i < |ids| ==> ids[i] != Error
    ensures |names| == |ids| && forall i :: 0 <= i < |ids| ==> names[i] == Name(ids[i])
  {
    seq(|ids|, i requires 0 <= i < |ids| => Name(ids[i]))
  }

  /** `, B` for every name between the first and the last. */
  function Middle(names: seq<string>): string {
    if names == [] then "" else Middle(names[..|names| - 1]) + ", " + names[|names| - 1]
  }

  /** The list of an "expected" message: `expected A`, `expected A or B`, `expected A, B or C`, ... */
  function ExpectedText(names: seq<string>): (t: string)
    requires names != []
    ensures |t| >= 9
  {
    "expected " + names[0]
      + (if |names| > 1 then Middle(names[1..|names| - 1]) + " or " + names[|names| - 1] else "")
  }

  /** The three shapes of the list. */
  lemma ExpectedShapes(a: string, b: string, c: string)
    ensures ExpectedText([a]) == "expected " + a
    ensures ExpectedText([a, b]) == "expected " + a + " or " + b
    ensures ExpectedText([a, b, c]) == "expected " + a + ", " + b + " or " + c
  {
    assert [a, b, c][1..2] == [b];
    assert [b][..0] == [];
  }

  /** With four or more names the commas go between all but the last two. */
  lemma {:induction false} MiddleAppend(names: seq<string>, x: string)
    ensures Middle(names + [x]) == Middle(names) + ", " + x
  {
    assert (names + [x])[..|names|] == names;
  }

  /** The `Display` loop: the first name, `, B` for each inner name, then ` or Z` for the last. */
  method WriteExpected(names: seq<string>) returns (out: string)
    requires names != []
    ensures out == ExpectedText(names)
  {
    out := "expected " + names[0];
    var size := |names|;
    if size > 1 {
      var middle := "";
      var i := 1;
      while i < size - 1
        invariant 1 <= i <= size - 1 && middle == Middle(names[1..i])
      {
        assert names[1..i + 1] == names[1..i] + [names[i]];
        MiddleAppend(names[1..i], names[i]);
        middle := middle + ", " + names[i];
        i := i + 1;
      }
      out := out + middle + " or " + names[size - 1];
    }
  }
}
