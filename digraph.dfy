/**
 * The `digraph` reader of `fsm/src/dot/parse/fsm.rs`: the callback that
 * unescapes a quoted identifier, the entries of a `digraph` body (state
 * declarations `a;` and transitions `a -> b [label="..."];`), the
 * resolution of the transitions against the declared states, and the
 * iterator of `src/fsm/dot/parse/mod.rs` that yields one FSM, or the
 * errors found reading it, per `digraph`.
 */
module DigraphParse {
  import opened Wrappers
  import opened DotTokens
  import opened SpannedLexer
  import opened TransitionGrammar
  import TP = TransitionParse
  import E = Expressions
  import M = Machine
  import Normalize

  // ---------------------------------------------------------------------
  // Quoted identifiers

  /** No `"` at all. */
  predicate NoQuote(s: string) {
    forall i :: 0 <= i < |s| ==> s[i] != '"'
  }

  /**
   * What the identifier expression lets through between the quotes: every
   * `"` is escaped by the `\` just before it, so none comes first.
   */
  predicate Escaped(s: string) {
    && (s == [] || s[0] != '"')
    && forall i, j :: 0 <= i < |s| && 0 <= j < |s| && j == i + 1 && s[j] == '"' ==> s[i] == '\\'
  }

  /** The text a quoted identifier stands for: each `\"` reads as `"`. */
  function Unescaped(s: string): (t: string)
    ensures |t| <= |s|
  {
    if |s| >= 2 && s[0] == '\\' && s[1] == '"' then ['"'] + Unescaped(s[2..])
    else if s == [] then []
    else [s[0]] + Unescaped(s[1..])
  }

  /**
   * The `removed` bits of `literal`: one per character but the last, set
   * where the next character is a `"`, that is at the `\` of each `\"`.
   */
  function Mask(s: string): (m: seq<bool>)
    requires s != []
  {
    seq(|s| - 1, i requires 0 <= i < |s| - 1 => s[i + 1] == '"')
  }

  /** The characters whose bit is not set (characters past the bits are kept). */
  function Erase(s: string, m: seq<bool>): string
    decreases |s|
  {
    if s == [] then []
    else (if m != [] && m[0] then [] else [s[0]]) + Erase(s[1..], if m == [] then [] else m[1..])
  }

  /** The quoting a printer would do: `"` becomes `\"`. */
  function Escape(t: string): (s: string)
    ensures |s| >= |t|
  {
    if t == [] then []
    else (if t[0] == '"' then ['\\', '"'] else [t[0]]) + Escape(t[1..])
  }

  /**
   * `literal` as it should be: the text between the quotes, borrowed when
   * it holds no escape, and otherwise unescaped and owned together with
   * the mask of the removed characters.
   */
  function LiteralOf(token: string): (id: Identifier)
    requires |token| >= 2
  {
    var slice := token[1..|token| - 1];
    if NoQuote(slice) then Borrowed(slice) else Owned(Unescaped(slice), Mask(slice))
  }

  /**
   * `usize` subtraction: `None` where it underflows, which panics in a
   * debug build and in a release build wraps to a length no allocation
   * can hold.
   */
  function SubUsize(a: nat, b: nat): (r: Option<nat>)
    ensures r.Some? <==> b <= a
    ensures r.Some? ==> r.value + b == a
  {
    if a < b then None else Some(a - b)
  }

  /**
   * `literal` as written: the mask of `slice.len() - 1` bits is allocated
   * before the empty slice is returned, so `None` (a panic) where that
   * length underflows.
   */
  function LiteralAsWritten(token: string): (r: Option<Identifier>)
    requires |token| >= 2
  {
    var slice := token[1..|token| - 1];
    var bits := SubUsize(|slice|, 1);
    if bits.None? then None else Some(LiteralOf(token))
  }

  /** The empty quoted identifier `""` makes `literal` as written panic. */
  lemma EmptyLiteralPanics()
    ensures LiteralAsWritten("\"\"") == None
  {
  }

  /** With the length taken after the empty check, `""` is the empty identifier, and on every other token both agree. */
  lemma EmptyLiteral(token: string)
    requires |token| >= 2
    ensures LiteralOf("\"\"") == Borrowed("")
    ensures |token| > 2 ==> LiteralAsWritten(token) == Some(LiteralOf(token))
    ensures LiteralAsWritten(token).None? <==> |token| == 2
  {
    assert NoQuote("\"\""[1..1]);
  }

  /** Text without quotes, in front of anything but a quote, reads as itself. */
  lemma {:induction false} PlainPrefix(p: string, q: string)
    requires NoQuote(p) && (q != [] ==> q[0] != '"')
    ensures Unescaped(p + q) == p + Unescaped(q)
  {
    if p == [] {
      assert p + q == q;
    } else {
      var x := p + q;
      assert x[1..] == p[1..] + q;
      assert |x| >= 2 ==> x[1] == (if |p| >= 2 then p[1] else q[0]);
      PlainHead(x);
      PlainPrefix(p[1..], q);
      assert [p[0]] + (p[1..] + Unescaped(q)) == p + Unescaped(q);
    }
  }

  /** A first character that starts no `\"` reads as itself. */
  lemma PlainHead(x: string)
    requires x != [] && (|x| >= 2 ==> x[1] != '"')
    ensures Unescaped(x) == [x[0]] + Unescaped(x[1..])
  {
  }

  /** Text without quotes reads as itself. */
  lemma PlainText(p: string)
    requires NoQuote(p)
    ensures Unescaped(p) == p
  {
    PlainPrefix(p, []);
    assert p + [] == p;
  }

  /** Where every quote but a first one is escaped, dropping the masked characters unescapes. */
  lemma {:induction false} EraseMask(s: string)
    requires s != []
    requires forall i :: 0 < i < |s| && s[i] == '"' ==> s[i - 1] == '\\'
    ensures Erase(s, Mask(s)) == Unescaped(s)
    decreases |s|
  {
    if |s| >= 2 {
      assert Mask(s)[1..] == Mask(s[1..]);
      EraseMask(s[1..]);
      if s[1] == '"' {
        assert s[1..][1..] == s[2..];
      }
    }
  }

  /**
   * The meaning of `literal`: its text is the unescaped slice, and an owned
   * identifier marks exactly the characters it dropped: the `\` of each
   * `\"`.
   */
  lemma LiteralMeaning(token: string)
    requires |token| >= 2 && Escaped(token[1..|token| - 1])
    ensures var slice := token[1..|token| - 1]; var id := LiteralOf(token);
      && id.text == Unescaped(slice)
      && (id.Borrowed? <==> NoQuote(slice))
      && (id.Owned? ==> |id.removed| == |slice| - 1 && Erase(slice, id.removed) == id.text)
      && (id.Owned? ==> forall i :: 0 <= i < |id.removed| ==> (id.removed[i] <==> slice[i] == '\\' && slice[i + 1] == '"'))
  {
    var slice := token[1..|token| - 1];
    if NoQuote(slice) {
      PlainText(slice);
    } else {
      EraseMask(slice);
    }
  }

  /** Quoting escapes every quote, and unescaping gives the text back. */
  lemma {:induction false} EscapeRoundTrip(t: string)
    ensures Escaped(Escape(t)) && Unescaped(Escape(t)) == t
    ensures Escape(t) != [] ==> Escape(t)[0] == (if t[0] == '"' then '\\' else t[0])
  {
    if t != [] {
      EscapeRoundTrip(t[1..]);
      var rest := Escape(t[1..]);
      if t[0] == '"' {
        assert Escape(t) == ['\\', '"'] + rest;
        assert Escape(t)[2..] == rest;
      } else {
        assert Escape(t) == [t[0]] + rest;
        assert Escape(t)[1..] == rest;
      }
      assert t == [t[0]] + t[1..];
    }
  }

  /** Any text, quoted with its quotes escaped, reads back as itself. */
  lemma QuotedRoundTrip(t: string)
    ensures var token := "\"" + Escape(t) + "\""; token[1..|token| - 1] == Escape(t) && LiteralOf(token).text == t
  {
    var token := "\"" + Escape(t) + "\"";
    assert token[1..|token| - 1] == Escape(t);
    EscapeRoundTrip(t);
    LiteralMeaning(token);
  }

  /** One step of the scan: text without quotes up to a `\"`, which reads as a `"`. */
  lemma ScanQuote(slice: string, lastEnd: nat, k: nat)
    requires Escaped(slice) && 0 < k < |slice| && slice[k] == '"' && lastEnd <= k
    requires lastEnd == 0 || slice[lastEnd - 1] == '"'
    requires NoQuote(slice[lastEnd..k])
    ensures lastEnd <= k - 1
    ensures Unescaped(slice[lastEnd..]) == slice[lastEnd..k - 1] + ['"'] + Unescaped(slice[k + 1..])
  {
    var start := k - 1;
    assert slice[start] == '\\';
    assert slice[lastEnd..] == slice[lastEnd..start] + slice[start..];
    assert NoQuote(slice[lastEnd..start]) by {
      assert slice[lastEnd..start] == slice[lastEnd..k][..start - lastEnd];
    }
    PlainPrefix(slice[lastEnd..start], slice[start..]);
    assert slice[start..][2..] == slice[start + 2..];
  }

  /**
   * Where the scan stands before position `k`: no quote since the last
   * escape, which ended just after a `"`, and the text pushed so far
   * followed by the rest unescaped is the whole slice unescaped.
   */
  ghost predicate Scanned(slice: string, result: string, lastEnd: nat, k: nat) {
    && 1 <= k <= |slice| && lastEnd <= k
    && (lastEnd == 0 || slice[lastEnd - 1] == '"')
    && (result == []) == (lastEnd == 0)
    && NoQuote(slice[lastEnd..k])
    && result + Unescaped(slice[lastEnd..]) == Unescaped(slice)
  }

  /** The scan's invariant, kept by a `\"` found at `k`: the text pushed grows by the plain text and a `"`. */
  lemma QuoteStep(slice: string, result: string, lastEnd: nat, k: nat, pushed: string)
    requires Escaped(slice) && Scanned(slice, result, lastEnd, k) && k < |slice| && slice[k] == '"'
    requires lastEnd <= k - 1 && pushed == result + slice[lastEnd..k - 1] + ['"']
    ensures Scanned(slice, pushed, k + 1, k + 1)
  {
    ScanQuote(slice, lastEnd, k);
    Assoc(result, slice[lastEnd..k - 1], ['"'], Unescaped(slice[k + 1..]));
  }

  /** Before a `\"` at `k` the last escape ends at least one character back. */
  lemma QuoteBound(slice: string, result: string, lastEnd: nat, k: nat)
    requires Escaped(slice) && Scanned(slice, result, lastEnd, k) && k < |slice| && slice[k] == '"'
    ensures lastEnd <= k - 1
  {
    ScanQuote(slice, lastEnd, k);
  }

  /** The scan's invariant, kept by any other character. */
  lemma PlainStep(slice: string, result: string, lastEnd: nat, k: nat)
    requires Scanned(slice, result, lastEnd, k) && k < |slice| && slice[k] != '"'
    ensures Scanned(slice, result, lastEnd, k + 1)
  {
    assert lastEnd <= k < |slice|;
    assert slice[lastEnd..k + 1] == slice[lastEnd..k] + [slice[k]];
  }

  lemma Assoc(a: string, b: string, c: string, d: string)
    ensures (a + b + c) + d == a + (b + c + d)
  {
  }

  /** At the end of the scan the rest reads as itself. */
  lemma ScanEnd(slice: string, result: string, lastEnd: nat)
    requires lastEnd <= |slice| && NoQuote(slice[lastEnd..|slice|])
    requires result + Unescaped(slice[lastEnd..]) == Unescaped(slice)
    ensures result + slice[lastEnd..] == Unescaped(slice)
  {
    assert slice[lastEnd..] == slice[lastEnd..|slice|];
    PlainText(slice[lastEnd..]);
  }

  /**
   * The `for` of `literal`: `memchr` over all but the first character for
   * each `"`, pushing the text since the last escape and a `"` and setting
   * the bit of the `\` before it.
   */
  method Scan(slice: string) returns (result: string, removed: array<bool>, lastEnd: nat)
    requires slice != [] && Escaped(slice)
    ensures fresh(removed) && removed[..] == Mask(slice)
    ensures lastEnd <= |slice| && (result == []) == (lastEnd == 0)
    ensures lastEnd == 0 || slice[lastEnd - 1] == '"'
    ensures NoQuote(slice[lastEnd..|slice|])
    ensures result + Unescaped(slice[lastEnd..]) == Unescaped(slice)
  {
    result := "";
    removed := new bool[|slice| - 1](_ => false);
    lastEnd := 0;
    var k := 1;
    assert Scanned(slice, result, lastEnd, k);
    while k < |slice|
      invariant Scanned(slice, result, lastEnd, k)
      invariant removed.Length == |slice| - 1
      invariant forall i :: 0 <= i < removed.Length ==> (removed[i] <==> i + 1 < k && slice[i + 1] == '"')
    {
      result, lastEnd := ScanAt(slice, removed, result, lastEnd, k);
      k := k + 1;
    }
    MaskOf(removed[..], slice);
  }

  /** Bits set exactly before each `"` after the first character are the mask. */
  lemma MaskOf(m: seq<bool>, slice: string)
    requires slice != [] && |m| == |slice| - 1
    requires forall i :: 0 <= i < |m| ==> (m[i] <==> i + 1 < |slice| && slice[i + 1] == '"')
    ensures m == Mask(slice)
  {
  }

  /** One character of the scan: at a `"`, the push, the bit of the `\` before it, and the new end of the last escape. */
  method ScanAt(slice: string, removed: array<bool>, result: string, lastEnd: nat, k: nat) returns (pushed: string, end: nat)
    requires Escaped(slice) && Scanned(slice, result, lastEnd, k) && k < |slice| && removed.Length == |slice| - 1
    modifies removed
    ensures Scanned(slice, pushed, end, k + 1)
    ensures forall i :: 0 <= i < removed.Length ==> (removed[i] <==> old(removed[i]) || (i == k - 1 && slice[k] == '"'))
  {
    pushed, end := result, lastEnd;
    if slice[k] == '"' {
      var start := k - 1;
      QuoteBound(slice, result, lastEnd, k);
      pushed := result + slice[lastEnd..start] + ['"'];
      QuoteStep(slice, result, lastEnd, k, pushed);
      removed[start] := true;
      end := start + 2;
    } else {
      PlainStep(slice, result, lastEnd, k);
    }
  }

  /** `literal`: the text between the quotes, unescaped when the scan found an escape. */
  method Literal(token: string) returns (id: Identifier)
    requires |token| >= 2 && token[0] == '"' && token[|token| - 1] == '"'
    requires Escaped(token[1..|token| - 1])
    ensures id == LiteralOf(token)
  {
    var slice := token[1..|token| - 1];
    if |slice| == 0 {
      return Borrowed(slice);
    }
    var result, removed, lastEnd := Scan(slice);
    if result == [] {
      assert slice[0..|slice|] == slice;
      return Borrowed(slice);
    }
    assert !NoQuote(slice) by {
      assert slice[lastEnd - 1] == '"';
    }
    ScanEnd(slice, result, lastEnd);
    result := result + slice[lastEnd..];
    id := Owned(result, removed[..]);
  }

  // ---------------------------------------------------------------------
  // Entries of a digraph body

  /** The identifier an `Identifier` token carries (the lexers attach one to every such token). */
  function NameOf(t: Spanned<Token>): Spanned<Identifier> {
    Spanned(t.span, if t.inner.value.Ident? then t.inner.value.identifier else Borrowed(""))
  }

  /** A transition read from a label, with its two endpoints as written. */
  type Triple = (Spanned<Identifier>, Spanned<Identifier>, Transition)

  /** What the transition set compares and hashes: `Spanned` ignores its span. */
  function Key(x: Triple): (Identifier, Identifier, Transition) {
    (x.0.inner, x.1.inner, x.2)
  }

  predicate Has(ts: seq<Triple>, x: Triple) {
    exists i :: 0 <= i < |ts| && Key(ts[i]) == Key(x)
  }

  /** No two entries of the set are equal. */
  predicate Distinct(ts: seq<Triple>) {
    forall i, j :: 0 <= i < j < |ts| ==> Key(ts[i]) != Key(ts[j])
  }

  /**
   * `HashSet::insert`: whether `x` was new, and the set after. The set is
   * kept in insertion order; an equal element already there stays, with
   * its own spans.
   */
  function Insert(ts: seq<Triple>, x: Triple): (p: (bool, seq<Triple>))
    ensures p.0 <==> !Has(ts, x)
    ensures p.0 ==> |p.1| == |ts| + 1 && Key(p.1[|ts|]) == Key(x)
    ensures Distinct(ts) ==> Distinct(p.1)
    ensures forall y :: Has(p.1, y) <==> Has(ts, y) || Key(y) == Key(x)
  {
    if Has(ts, x) then (false, ts)
    else
      var us := ts + [x];
      assert forall y :: Has(us, y) ==> Has(ts, y) || Key(y) == Key(x) by {
        forall y | Has(us, y) ensures Has(ts, y) || Key(y) == Key(x) {
          var i :| 0 <= i < |us| && Key(us[i]) == Key(y);
          if i < |ts| {
            assert Key(ts[i]) == Key(y);
          }
        }
      }
      assert forall y :: Has(ts, y) ==> Has(us, y) by {
        forall y | Has(ts, y) ensures Has(us, y) {
          var i :| 0 <= i < |ts| && Key(ts[i]) == Key(y);
          assert Key(us[i]) == Key(y);
        }
      }
      assert Key(us[|ts|]) == Key(x);
      (true, us)
  }

  /**
   * What `parse_entry` fills in: the index of each declared state, and the
   * set of transitions read so far.
   */
  datatype Collected = Collected(states: map<Identifier, nat>, transitions: seq<Triple>)

  /** What the parser keeps true of them: states numbered densely in order of declaration, no transition twice. */
  ghost predicate Sound(c: Collected) {
    Normalize.Dense(c.states) && Distinct(c.transitions)
  }

  /** `parse_entry` returns `Some` (`More`), `None` (`Done`), or panics on an unimplemented label. */
  datatype StepKind = More | Done | Panicked

  datatype Step = Step(kind: StepKind, c: Collected, reader: Reader)

  /** The lexer of transition labels, as a function of a label's text: its tokens and the span at its end. */
  type LabelLexer = string -> (seq<Spanned<Token>>, Span)

  /** Every label lexes to tokens the parser can take. */
  ghost predicate LexesLabels(lex: LabelLexer) {
    forall s :: Lexable(lex(s).0)
  }

  /** The error pushed at `span`. */
  function Pushed(r: Reader, span: Span, e: FsmError): (q: Reader)
    ensures q.pending == r.pending && q.expected == r.expected
    ensures q.errors == r.errors + [Spanned(span, Fsm(e))]
  {
    r.(errors := r.errors + [Spanned(span, Fsm(e))])
  }

  /**
   * `left;`: a state declared before is reported at its name and nothing
   * changes; a new one gets the next free index.
   */
  function DeclareOf(r: Reader, c: Collected, left: Spanned<Identifier>): (p: (Collected, Reader))
    ensures p.1.pending == r.pending && p.1.expected == r.expected && p.0.transitions == c.transitions
  {
    if left.inner in c.states then (c, Pushed(r, left.span, DuplicateState))
    else (c.(states := c.states[left.inner := |c.states|]), r)
  }

  /**
   * The transition read from a label, if any, goes into the set; one equal
   * to a transition already there is reported at `left` to `right`.
   */
  function RecordOf(r: Reader, c: Collected, left: Spanned<Identifier>, right: Spanned<Identifier>, t: Option<Transition>): (p: (Collected, Reader))
    ensures p.1.pending == r.pending && p.1.expected == r.expected && p.0.states == c.states
  {
    if t.None? then (c, r)
    else
      var (inserted, ts) := Insert(c.transitions, (left, right, t.value));
      (c.(transitions := ts), if inserted then r else Pushed(r, Merge(left.span, right.span), DuplicateTransition))
  }

  /** After the label: an optional `,`, then `]` and `;`. */
  function TailOf(r: Reader, end: Span, c: Collected): (s: Step)
    requires Lexable(r.pending)
    ensures s.kind != Panicked && s.c == c
    ensures Lexable(s.reader.pending) && |s.reader.pending| <= |r.pending| && s.reader.expected == []
    ensures s.kind == More ==> |s.reader.pending| < |r.pending|
  {
    var (_, r1) := NextIfOf(r, end, Comma);
    var (square, r2) := ExpectNextIfOf(r1, end, RightSquare);
    if square.None? then Step(Done, c, r2)
    else
      var (semicolon, r3) := ExpectNextIfOf(r2, end, Semicolon);
      Step(if semicolon.None? then Done else More, c, r3)
  }

  /**
   * The label's text, read by the transition parser on a lexer of its own
   * that reports into the same error list; then the rest of the entry.
   */
  function LabelOf(r: Reader, end: Span, lex: LabelLexer, refinements: bool, c: Collected,
                   left: Spanned<Identifier>, right: Spanned<Identifier>, text: string): (s: Step)
    requires Lexable(r.pending) && LexesLabels(lex)
    ensures s.kind != Panicked ==> Lexable(s.reader.pending) && |s.reader.pending| <= |r.pending| && s.reader.expected == []
    ensures s.kind == More ==> |s.reader.pending| < |r.pending|
    ensures s.kind != Panicked ==> s.c.states == c.states
  {
    var (tokens, labelEnd) := lex(text);
    var (o, sub) := TransitionOf(Reader(tokens, [], r.errors), labelEnd, refinements);
    if o.Unimplemented? then Step(Panicked, c, r)
    else
      var (c1, r1) := RecordOf(r.(errors := sub.errors), c, left, right, o.transition);
      TailOf(r1, end, c1)
  }

  /** `label = "..."` inside the brackets. */
  function AssignOf(r: Reader, end: Span, lex: LabelLexer, refinements: bool, c: Collected,
                    left: Spanned<Identifier>, right: Spanned<Identifier>): (s: Step)
    requires Lexable(r.pending) && LexesLabels(lex)
    ensures s.kind != Panicked ==> Lexable(s.reader.pending) && |s.reader.pending| <= |r.pending| && s.reader.expected == []
    ensures s.kind == More ==> |s.reader.pending| < |r.pending|
    ensures s.kind != Panicked ==> s.c.states == c.states
  {
    var (equal, r1) := ExpectNextIfOf(r, end, Equal);
    if equal.None? then Step(Done, c, r1)
    else
      var (value, r2) := ExpectNextIfOf(r1, end, Identifier);
      if value.None? then Step(Done, c, r2)
      else LabelOf(r2, end, lex, refinements, c, left, right, NameOf(value.value).inner.text)
  }

  /** `[label` after the target state. */
  function AttributesOf(r: Reader, end: Span, lex: LabelLexer, refinements: bool, c: Collected,
                        left: Spanned<Identifier>, right: Spanned<Identifier>): (s: Step)
    requires Lexable(r.pending) && LexesLabels(lex)
    ensures s.kind != Panicked ==> Lexable(s.reader.pending) && |s.reader.pending| <= |r.pending| && s.reader.expected == []
    ensures s.kind == More ==> |s.reader.pending| < |r.pending|
    ensures s.kind != Panicked ==> s.c.states == c.states
  {
    var (square, r1) := ExpectNextIfOf(r, end, LeftSquare);
    if square.None? then Step(Done, c, r1)
    else
      var (keyword, r2) := ExpectNextIfOf(r1, end, Label);
      if keyword.None? then Step(Done, c, r2)
      else AssignOf(r2, end, lex, refinements, c, left, right)
  }

  /** `-> right` after the source state. */
  function EdgeOf(r: Reader, end: Span, lex: LabelLexer, refinements: bool, c: Collected, left: Spanned<Identifier>): (s: Step)
    requires Lexable(r.pending) && LexesLabels(lex)
    ensures s.kind != Panicked ==> Lexable(s.reader.pending) && |s.reader.pending| <= |r.pending| && s.reader.expected == []
    ensures s.kind == More ==> |s.reader.pending| < |r.pending|
    ensures s.kind != Panicked ==> s.c.states == c.states
  {
    var (arrow, r1) := ExpectNextIfOf(r, end, Arrow);
    if arrow.None? then Step(Done, c, r1)
    else
      var (right, r2) := ExpectNextIfOf(r1, end, Identifier);
      if right.None? then Step(Done, c, r2)
      else AttributesOf(r2, end, lex, refinements, c, left, NameOf(right.value))
  }

  /**
   * `parse_entry`: `}` ends the body; otherwise a state name, then either
   * `;` (a declaration) or a transition.
   */
  function EntryOf(r: Reader, end: Span, lex: LabelLexer, refinements: bool, c: Collected): (s: Step)
    requires Lexable(r.pending) && LexesLabels(lex)
    ensures s.kind != Panicked ==> Lexable(s.reader.pending) && |s.reader.pending| <= |r.pending| && s.reader.expected == []
    ensures s.kind == More ==> |s.reader.pending| < |r.pending|
  {
    var (close, r1) := NextIfOf(r, end, RightBrace);
    if close.Some? then Step(Done, c, r1)
    else
      var (left, r2) := ExpectNextIfOf(r1, end, Identifier);
      if left.None? then Step(Done, c, r2)
      else StatementOf(r2, end, lex, refinements, c, NameOf(left.value))
  }

  /** After the state name: `;` declares it; anything else is read as a transition from it. */
  function StatementOf(r: Reader, end: Span, lex: LabelLexer, refinements: bool, c: Collected, left: Spanned<Identifier>): (s: Step)
    requires Lexable(r.pending) && LexesLabels(lex)
    ensures s.kind != Panicked ==> Lexable(s.reader.pending) && |s.reader.pending| <= |r.pending| && s.reader.expected == []
    ensures s.kind == More ==> |s.reader.pending| < |r.pending|
  {
    var (semicolon, r1) := NextIfOf(r, end, Semicolon);
    if semicolon.Some? then
      var (c1, r2) := DeclareOf(r1, c, left);
      Step(More, c1, r2)
    else EdgeOf(r1, end, lex, refinements, c, left)
  }

  /** The `while` of `parse`: entries until one returns `None` (or panics). */
  function EntriesOf(r: Reader, end: Span, lex: LabelLexer, refinements: bool, c: Collected): (s: Step)
    requires Lexable(r.pending) && LexesLabels(lex)
    ensures s.kind != More
    ensures s.kind == Done ==> Lexable(s.reader.pending) && |s.reader.pending| <= |r.pending| && s.reader.expected == []
    decreases |r.pending|
  {
    var s := EntryOf(r, end, lex, refinements, c);
    if s.kind == More then EntriesOf(s.reader, end, lex, refinements, s.c) else s
  }

  /** A declaration numbers a new state with the next index and never renumbers one. */
  lemma DeclareSound(r: Reader, c: Collected, left: Spanned<Identifier>)
    requires Sound(c)
    ensures var (c1, r1) := DeclareOf(r, c, left);
      && Sound(c1) && left.inner in c1.states
      && (forall x :: x in c.states ==> x in c1.states && c1.states[x] == c.states[x])
      && (left.inner in c.states <==> c1 == c && r1.errors == r.errors + [Spanned(left.span, Fsm(DuplicateState))])
      && (left.inner !in c.states ==> c1.states[left.inner] == |c.states| && |c1.states| == |c.states| + 1 && r1.errors == r.errors)
  {
    Normalize.InternDense(c.states, left.inner);
    if left.inner !in c.states {
      assert c.states[left.inner := |c.states|].Keys == c.states.Keys + {left.inner};
    }
  }

  /** Recording keeps every transition once, and reports exactly a repeated one. */
  lemma RecordSound(r: Reader, c: Collected, left: Spanned<Identifier>, right: Spanned<Identifier>, t: Transition)
    requires Sound(c)
    ensures var (c1, r1) := RecordOf(r, c, left, right, Some(t)); var x := (left, right, t);
      && Sound(c1)
      && (Has(c.transitions, x) <==> c1 == c && r1.errors == r.errors + [Spanned(Merge(left.span, right.span), Fsm(DuplicateTransition))])
      && (!Has(c.transitions, x) <==> c1.transitions == c.transitions + [x] && r1.errors == r.errors)
  {
    var x := (left, right, t);
    if !Has(c.transitions, x) {
      assert c.transitions + [x] != c.transitions by {
        assert |c.transitions + [x]| != |c.transitions|;
      }
    }
  }

  /** One entry keeps the collection sound. */
  lemma EntrySound(r: Reader, end: Span, lex: LabelLexer, refinements: bool, c: Collected)
    requires Lexable(r.pending) && LexesLabels(lex) && Sound(c)
    ensures Sound(EntryOf(r, end, lex, refinements, c).c)
  {
    var (close, r1) := NextIfOf(r, end, RightBrace);
    if close.None? {
      var (left, r2) := ExpectNextIfOf(r1, end, Identifier);
      if left.Some? {
        var (semicolon, r3) := NextIfOf(r2, end, Semicolon);
        if semicolon.Some? {
          DeclareSound(r3, c, NameOf(left.value));
        } else {
          EdgeSound(r3, end, lex, refinements, c, NameOf(left.value));
        }
      }
    }
  }

  lemma EdgeSound(r: Reader, end: Span, lex: LabelLexer, refinements: bool, c: Collected, left: Spanned<Identifier>)
    requires Lexable(r.pending) && LexesLabels(lex) && Sound(c)
    ensures Sound(EdgeOf(r, end, lex, refinements, c, left).c)
  {
    var (arrow, r1) := ExpectNextIfOf(r, end, Arrow);
    if arrow.Some? {
      var (right, r2) := ExpectNextIfOf(r1, end, Identifier);
      if right.Some? {
        var (square, r3) := ExpectNextIfOf(r2, end, LeftSquare);
        if square.Some? {
          var (keyword, r4) := ExpectNextIfOf(r3, end, Label);
          if keyword.Some? {
            AssignSound(r4, end, lex, refinements, c, left, NameOf(right.value));
          }
        }
      }
    }
  }

  lemma AssignSound(r: Reader, end: Span, lex: LabelLexer, refinements: bool, c: Collected,
                    left: Spanned<Identifier>, right: Spanned<Identifier>)
    requires Lexable(r.pending) && LexesLabels(lex) && Sound(c)
    ensures Sound(AssignOf(r, end, lex, refinements, c, left, right).c)
  {
    var (equal, r1) := ExpectNextIfOf(r, end, Equal);
    if equal.Some? {
      var (value, r2) := ExpectNextIfOf(r1, end, Identifier);
      if value.Some? {
        LabelSound(r2, end, lex, refinements, c, left, right, NameOf(value.value).inner.text);
      }
    }
  }

  lemma LabelSound(r: Reader, end: Span, lex: LabelLexer, refinements: bool, c: Collected,
                   left: Spanned<Identifier>, right: Spanned<Identifier>, text: string)
    requires Lexable(r.pending) && LexesLabels(lex) && Sound(c)
    ensures Sound(LabelOf(r, end, lex, refinements, c, left, right, text).c)
  {
    var (tokens, labelEnd) := lex(text);
    var (o, sub) := TransitionOf(Reader(tokens, [], r.errors), labelEnd, refinements);
    if o.Returned? && o.transition.Some? {
      RecordSound(r.(errors := sub.errors), c, left, right, o.transition.value);
    }
  }

  /** The whole body keeps the collection sound. */
  lemma {:induction false} EntriesSound(r: Reader, end: Span, lex: LabelLexer, refinements: bool, c: Collected)
    requires Lexable(r.pending) && LexesLabels(lex) && Sound(c)
    ensures Sound(EntriesOf(r, end, lex, refinements, c).c)
    decreases |r.pending|
  {
    EntrySound(r, end, lex, refinements, c);
    var s := EntryOf(r, end, lex, refinements, c);
    if s.kind == More {
      EntriesSound(s.reader, end, lex, refinements, s.c);
    }
  }

  // ---------------------------------------------------------------------
  // Resolving the transitions

  /** An FSM of `n` states and no transitions. */
  function Ends(role: string, n: nat): (g: M.Graph<string, E.Message>)
    ensures M.Valid(g) && g.role == role && |g.states| == n && g.edges == []
  {
    M.Graph(role, seq(n, _ => M.End), [])
  }

  /** Every state index the map hands out names a state of `g`. */
  ghost predicate Indexes(states: map<Identifier, nat>, g: M.Graph<string, E.Message>) {
    forall x :: x in states ==> states[x] < |g.states|
  }

  /**
   * One transition of the `for` in `parse`: an undefined source, and
   * otherwise an undefined target, is reported at its own name and the
   * transition skipped; a transition `add_transition` refuses is reported
   * at the two names together.
   */
  function ResolveOneOf(g: M.Graph<string, E.Message>, states: map<Identifier, nat>, x: Triple, errors: seq<Spanned<ParseError>>):
    (p: (M.Graph<string, E.Message>, seq<Spanned<ParseError>>))
    requires M.Valid(g) && Indexes(states, g)
    ensures M.Valid(p.0) && p.0.role == g.role && |p.0.states| == |g.states|
  {
    if x.0.inner !in states then (g, errors + [Spanned(x.0.span, Fsm(UndefinedState))])
    else if x.1.inner !in states then (g, errors + [Spanned(x.1.span, Fsm(UndefinedState))])
    else
      var (result, h) := M.AddTransitionTo(g, states[x.0.inner], states[x.1.inner], x.2);
      M.AddTransitionValid(g, states[x.0.inner], states[x.1.inner], x.2);
      M.AddTransitionOutcome(g, states[x.0.inner], states[x.1.inner], x.2);
      (h, if result.Err? then errors + [Spanned(Merge(x.0.span, x.1.span), Fsm(AddTransition(result.error)))] else errors)
  }

  /** The `for` over every recorded transition. */
  function ResolveOf(g: M.Graph<string, E.Message>, states: map<Identifier, nat>, ts: seq<Triple>, errors: seq<Spanned<ParseError>>):
    (p: (M.Graph<string, E.Message>, seq<Spanned<ParseError>>))
    requires M.Valid(g) && Indexes(states, g)
    ensures M.Valid(p.0) && p.0.role == g.role && |p.0.states| == |g.states|
    decreases |ts|
  {
    if ts == [] then (g, errors)
    else
      var (h, errors1) := ResolveOneOf(g, states, ts[0], errors);
      ResolveOf(h, states, ts[1..], errors1)
  }

  /**
   * The edges and the errors only grow, and by one between them per
   * transition: each one recorded becomes an edge of the FSM or an error.
   */
  lemma {:induction false} ResolveAccounts(g: M.Graph<string, E.Message>, states: map<Identifier, nat>, ts: seq<Triple>, errors: seq<Spanned<ParseError>>)
    requires M.Valid(g) && Indexes(states, g)
    ensures var (h, errors1) := ResolveOf(g, states, ts, errors);
      && |h.edges| + |errors1| == |g.edges| + |errors| + |ts|
      && |g.edges| <= |h.edges| && h.edges[..|g.edges|] == g.edges
      && |errors| <= |errors1| && errors1[..|errors|] == errors
    decreases |ts|
  {
    if ts != [] {
      var x := ts[0];
      var (h, errors1) := ResolveOneOf(g, states, x, errors);
      if x.0.inner in states && x.1.inner in states {
        M.AddTransitionOutcome(g, states[x.0.inner], states[x.1.inner], x.2);
      }
      assert |h.edges| + |errors1| == |g.edges| + |errors| + 1;
      assert h.edges[..|g.edges|] == g.edges;
      ResolveAccounts(h, states, ts[1..], errors1);
      var (k, errors2) := ResolveOf(h, states, ts[1..], errors1);
      assert k.edges[..|g.edges|] == k.edges[..|h.edges|][..|g.edges|];
      assert errors2[..|errors|] == errors2[..|errors1|][..|errors|];
    }
  }

  /**
   * A transition from or to a state never declared is reported (at the
   * source when both are missing) and skipped; the others go on.
   */
  lemma SkipsUndefined(g: M.Graph<string, E.Message>, states: map<Identifier, nat>, x: Triple, ts: seq<Triple>, errors: seq<Spanned<ParseError>>)
    requires M.Valid(g) && Indexes(states, g)
    requires x.0.inner !in states || x.1.inner !in states
    ensures var missing := if x.0.inner !in states then x.0 else x.1;
      ResolveOf(g, states, [x] + ts, errors) == ResolveOf(g, states, ts, errors + [Spanned(missing.span, Fsm(UndefinedState))])
  {
    assert ([x] + ts)[0] == x && ([x] + ts)[1..] == ts;
  }

  /**
   * A transition between declared states is added, or reported over both
   * names with the reason `add_transition` gives; the others go on.
   */
  lemma AddsDefined(g: M.Graph<string, E.Message>, states: map<Identifier, nat>, x: Triple, ts: seq<Triple>, errors: seq<Spanned<ParseError>>)
    requires M.Valid(g) && Indexes(states, g)
    requires x.0.inner in states && x.1.inner in states
    ensures var (result, h) := M.AddTransitionTo(g, states[x.0.inner], states[x.1.inner], x.2);
      && (result.Ok? ==> ResolveOf(g, states, [x] + ts, errors) == ResolveOf(h, states, ts, errors))
      && (result.Err? ==> h == g)
      && (result.Err? ==>
            ResolveOf(g, states, [x] + ts, errors)
            == ResolveOf(g, states, ts, errors + [Spanned(Merge(x.0.span, x.1.span), Fsm(AddTransition(result.error)))]))
  {
    assert ([x] + ts)[0] == x && ([x] + ts)[1..] == ts;
    M.AddTransitionOutcome(g, states[x.0.inner], states[x.1.inner], x.2);
  }

  // ---------------------------------------------------------------------
  // A whole digraph

  /** `fsm::parse`: `None`, or `Some` FSM, with the reader after it; or a panic from a label. */
  datatype Parsed = Parsed(graph: Option<M.Graph<string, E.Message>>, reader: Reader) | ParsePanicked

  /** `{`, the entries, then the transitions resolved against the states declared. */
  function BodyOf(r: Reader, end: Span, lex: LabelLexer, refinements: bool, role: string): (p: Parsed)
    requires Lexable(r.pending) && LexesLabels(lex)
    ensures p.Parsed? ==> Lexable(p.reader.pending) && |p.reader.pending| <= |r.pending| && p.reader.expected == []
    ensures p.Parsed? && p.graph.Some? ==> M.Valid(p.graph.value) && p.graph.value.role == role
  {
    var (brace, r1) := ExpectNextIfOf(r, end, LeftBrace);
    if brace.None? then Parsed(None, r1)
    else EntriesGraphOf(r1, end, lex, refinements, role)
  }

  /** What follows the `{`: the entries, then the transitions they collected added to a new FSM of the role. */
  function EntriesGraphOf(r: Reader, end: Span, lex: LabelLexer, refinements: bool, role: string): (p: Parsed)
    requires Lexable(r.pending) && LexesLabels(lex)
    ensures p.Parsed? ==> Lexable(p.reader.pending) && |p.reader.pending| <= |r.pending| && p.reader.expected == []
    ensures p.Parsed? ==> p.graph.Some? && M.Valid(p.graph.value) && p.graph.value.role == role
  {
    var s := EntriesOf(r, end, lex, refinements, Collected(map[], []));
    if s.kind == Panicked then ParsePanicked
    else
      EntriesSound(r, end, lex, refinements, Collected(map[], []));
      var (g, errors) := ResolveOf(Ends(role, |s.c.states|), s.c.states, s.c.transitions, s.reader.errors);
      Parsed(Some(g), s.reader.(errors := errors))
  }

  /** `digraph role { ... }`. */
  function DigraphOf(r: Reader, end: Span, lex: LabelLexer, refinements: bool): (p: Parsed)
    requires Lexable(r.pending) && LexesLabels(lex)
    ensures p.Parsed? ==> Lexable(p.reader.pending) && |p.reader.pending| <= |r.pending| && p.reader.expected == []
    ensures p.Parsed? && p.graph.Some? ==> M.Valid(p.graph.value)
  {
    var (digraph, r1) := ExpectNextIfOf(r, end, Digraph);
    if digraph.None? then Parsed(None, r1)
    else
      var (role, r2) := ExpectNextIfOf(r1, end, Identifier);
      if role.None? then Parsed(None, r2)
      else BodyOf(r2, end, lex, refinements, NameOf(role.value).inner.text)
  }

  /** A `digraph` read from a clean error list that reports nothing is an FSM. */
  lemma CleanIsGraph(r: Reader, end: Span, lex: LabelLexer, refinements: bool)
    requires Lexable(r.pending) && LexesLabels(lex) && r.errors == []
    requires DigraphOf(r, end, lex, refinements).Parsed? && DigraphOf(r, end, lex, refinements).reader.errors == []
    ensures DigraphOf(r, end, lex, refinements).graph.Some?
  {
    var e := HeaderDecides(r, end, lex, refinements);
  }

  /** The body returns `None` exactly when its `{` is missing, and has then reported it. */
  lemma BodyHeader(r: Reader, end: Span, lex: LabelLexer, refinements: bool, role: string) returns (e: Spanned<ParseError>)
    requires Lexable(r.pending) && LexesLabels(lex)
    ensures var p := BodyOf(r, end, lex, refinements, role);
      && (p.Parsed? && p.graph.None? <==> !(|r.pending| >= 1 && r.pending[0].inner.id == LeftBrace))
      && (p.Parsed? && p.graph.None? ==> p.reader.errors == r.errors + [e] && e.inner.TokenError?)
  {
    e := Spanned(Front(r.pending, end).span, TokenError(r.expected + [LeftBrace]));
  }

  /**
   * `parse` returns `None` exactly when the header `digraph role {` is not
   * there, and then it has reported the one token it expected; otherwise it
   * returns the FSM, with every error on the way in the list.
   */
  lemma HeaderDecides(r: Reader, end: Span, lex: LabelLexer, refinements: bool) returns (e: Spanned<ParseError>)
    requires Lexable(r.pending) && LexesLabels(lex)
    ensures var p := DigraphOf(r, end, lex, refinements);
      var header := |r.pending| >= 3 && r.pending[0].inner.id == Digraph
        && r.pending[1].inner.id == Identifier && r.pending[2].inner.id == LeftBrace;
      && (p.Parsed? && p.graph.None? <==> !header)
      && (p.Parsed? && p.graph.None? ==> p.reader.errors == r.errors + [e] && e.inner.TokenError?)
  {
    var (digraph, r1) := ExpectNextIfOf(r, end, Digraph);
    if digraph.Some? {
      var (role, r2) := ExpectNextIfOf(r1, end, Identifier);
      if role.Some? {
        assert r2.pending == r.pending[2..] by {
          assert r1.pending == r.pending[1..];
        }
        e := BodyHeader(r2, end, lex, refinements, NameOf(role.value).inner.text);
      } else {
        e := Spanned(Front(r1.pending, end).span, TokenError(r1.expected + [Identifier]));
      }
    } else {
      e := Spanned(Front(r.pending, end).span, TokenError(r.expected + [Digraph]));
    }
  }

  /**
   * At a first token other than `digraph`, `parse` consumes nothing and
   * reports one error expecting `digraph` at that token. This is a property
   * of the model of `parse`; it implies that `ParseIter.Next`, called
   * again, meets the same token, but no claim about the source's iterator
   * is made beyond what the model shows.
   */
  lemma {:induction false} StuckOnBadHeader(r: Reader, end: Span, lex: LabelLexer, refinements: bool)
    requires Lexable(r.pending) && LexesLabels(lex)
    requires r.pending != [] && r.pending[0].inner.id != Digraph
    ensures var p := DigraphOf(r, end, lex, refinements);
      p == Parsed(None, Reader(r.pending, [], r.errors + [Spanned(r.pending[0].span, TokenError(r.expected + [Digraph]))]))
  {
  }

  // ---------------------------------------------------------------------
  // The parser, on the lexer

  /** `left;` on the lexer and the FSM: `add_state` numbers the new state. */
  method Declare(tokens: Lexer, fsm: M.Fsm<string, E.Message>, c: Collected, left: Spanned<Identifier>) returns (c1: Collected)
    requires tokens.Valid() && fsm.View() == Ends(fsm.role, |c.states|)
    modifies tokens.errors, fsm
    ensures tokens.Valid() && fsm.role == old(fsm.role)
    ensures (c1, TP.Now(tokens)) == DeclareOf(old(TP.Now(tokens)), c, left)
    ensures fsm.View() == Ends(fsm.role, |c1.states|)
  {
    if left.inner in c.states {
      tokens.PushErr(left.span, Fsm(DuplicateState));
      c1 := c;
    } else {
      var index := fsm.AddState();
      c1 := c.(states := c.states[left.inner := index]);
      assert c1.states.Keys == c.states.Keys + {left.inner};
      assert fsm.states == Ends(fsm.role, |c1.states|).states;
    }
  }

  /** `transitions.insert`, reporting a transition seen before. */
  method Record(tokens: Lexer, c: Collected, left: Spanned<Identifier>, right: Spanned<Identifier>, t: Option<Transition>)
    returns (c1: Collected)
    requires tokens.Valid()
    modifies tokens.errors
    ensures tokens.Valid()
    ensures (c1, TP.Now(tokens)) == RecordOf(old(TP.Now(tokens)), c, left, right, t)
  {
    if t.None? {
      return c;
    }
    var inserted := Insert(c.transitions, (left, right, t.value));
    c1 := c.(transitions := inserted.1);
    if !inserted.0 {
      tokens.PushErr(Merge(left.span, right.span), Fsm(DuplicateTransition));
    }
  }

  method ParseTail(tokens: Lexer) returns (kind: StepKind)
    requires tokens.Valid()
    modifies tokens, tokens.errors
    ensures tokens.Valid()
    ensures forall c :: Step(kind, c, TP.Now(tokens)) == TailOf(old(TP.Now(tokens)), tokens.end, c)
  {
    tokens.PendingLexable();
    var _ := tokens.NextIf(Comma);
    var square := tokens.ExpectNextIf(RightSquare);
    if square.None? {
      return Done;
    }
    var semicolon := tokens.ExpectNextIf(Semicolon);
    kind := if semicolon.None? then Done else More;
  }

  /**
   * The label, on a transition lexer of its own over the label's text
   * that pushes into the same error list, and then the rest of the entry.
   */
  method ParseLabel(tokens: Lexer, lex: LabelLexer, refinements: bool, c: Collected,
                    left: Spanned<Identifier>, right: Spanned<Identifier>, text: string) returns (kind: StepKind, c1: Collected)
    requires tokens.Valid() && LexesLabels(lex)
    modifies tokens, tokens.errors
    ensures tokens.Valid()
    ensures var s := LabelOf(old(TP.Now(tokens)), tokens.end, lex, refinements, c, left, right, text);
      kind == s.kind && (kind != Panicked ==> c1 == s.c && TP.Now(tokens) == s.reader)
  {
    var (input, labelEnd) := lex(text);
    var sub := new Lexer(input, labelEnd, tokens.errors);
    var o := TP.Parse(sub, refinements);
    if o.Unimplemented? {
      return Panicked, c;
    }
    sub.Finish();
    c1 := Record(tokens, c, left, right, o.transition);
    kind := ParseTail(tokens);
  }

  method ParseAssign(tokens: Lexer, lex: LabelLexer, refinements: bool, c: Collected,
                     left: Spanned<Identifier>, right: Spanned<Identifier>) returns (kind: StepKind, c1: Collected)
    requires tokens.Valid() && LexesLabels(lex)
    modifies tokens, tokens.errors
    ensures tokens.Valid()
    ensures var s := AssignOf(old(TP.Now(tokens)), tokens.end, lex, refinements, c, left, right);
      kind == s.kind && (kind != Panicked ==> c1 == s.c && TP.Now(tokens) == s.reader)
  {
    tokens.PendingLexable();
    var equal := tokens.ExpectNextIf(Equal);
    if equal.None? {
      return Done, c;
    }
    var value := tokens.ExpectNextIf(Identifier);
    if value.None? {
      return Done, c;
    }
    kind, c1 := ParseLabel(tokens, lex, refinements, c, left, right, NameOf(value.value).inner.text);
  }

  method ParseAttributes(tokens: Lexer, lex: LabelLexer, refinements: bool, c: Collected,
                         left: Spanned<Identifier>, right: Spanned<Identifier>) returns (kind: StepKind, c1: Collected)
    requires tokens.Valid() && LexesLabels(lex)
    modifies tokens, tokens.errors
    ensures tokens.Valid()
    ensures var s := AttributesOf(old(TP.Now(tokens)), tokens.end, lex, refinements, c, left, right);
      kind == s.kind && (kind != Panicked ==> c1 == s.c && TP.Now(tokens) == s.reader)
  {
    tokens.PendingLexable();
    var square := tokens.ExpectNextIf(LeftSquare);
    if square.None? {
      return Done, c;
    }
    var keyword := tokens.ExpectNextIf(Label);
    if keyword.None? {
      return Done, c;
    }
    kind, c1 := ParseAssign(tokens, lex, refinements, c, left, right);
  }

  method ParseEdge(tokens: Lexer, lex: LabelLexer, refinements: bool, c: Collected, left: Spanned<Identifier>)
    returns (kind: StepKind, c1: Collected)
    requires tokens.Valid() && LexesLabels(lex)
    modifies tokens, tokens.errors
    ensures tokens.Valid()
    ensures var s := EdgeOf(old(TP.Now(tokens)), tokens.end, lex, refinements, c, left);
      kind == s.kind && (kind != Panicked ==> c1 == s.c && TP.Now(tokens) == s.reader)
  {
    tokens.PendingLexable();
    var arrow := tokens.ExpectNextIf(Arrow);
    if arrow.None? {
      return Done, c;
    }
    var right := tokens.ExpectNextIf(Identifier);
    if right.None? {
      return Done, c;
    }
    kind, c1 := ParseAttributes(tokens, lex, refinements, c, left, NameOf(right.value));
  }

  /** `parse_entry`. */
  method ParseEntry(tokens: Lexer, fsm: M.Fsm<string, E.Message>, lex: LabelLexer, refinements: bool, c: Collected)
    returns (kind: StepKind, c1: Collected)
    requires tokens.Valid() && LexesLabels(lex) && fsm.View() == Ends(fsm.role, |c.states|)
    modifies tokens, tokens.errors, fsm
    ensures tokens.Valid() && fsm.role == old(fsm.role)
    ensures var s := EntryOf(old(TP.Now(tokens)), tokens.end, lex, refinements, c);
      kind == s.kind && (kind != Panicked ==> c1 == s.c && TP.Now(tokens) == s.reader)
    ensures kind != Panicked ==> fsm.View() == Ends(fsm.role, |c1.states|)
  {
    tokens.PendingLexable();
    var close := tokens.NextIf(RightBrace);
    if close.Some? {
      return Done, c;
    }
    var left := tokens.ExpectNextIf(Identifier);
    if left.None? {
      return Done, c;
    }
    kind, c1 := ParseStatement(tokens, fsm, lex, refinements, c, NameOf(left.value));
  }

  /** The rest of `parse_entry` after the state name: a declaration at `;`, a transition otherwise. */
  method ParseStatement(tokens: Lexer, fsm: M.Fsm<string, E.Message>, lex: LabelLexer, refinements: bool, c: Collected,
                        left: Spanned<Identifier>) returns (kind: StepKind, c1: Collected)
    requires tokens.Valid() && LexesLabels(lex) && fsm.View() == Ends(fsm.role, |c.states|)
    modifies tokens, tokens.errors, fsm
    ensures tokens.Valid() && fsm.role == old(fsm.role)
    ensures var s := StatementOf(old(TP.Now(tokens)), tokens.end, lex, refinements, c, left);
      kind == s.kind && (kind != Panicked ==> c1 == s.c && TP.Now(tokens) == s.reader)
    ensures kind != Panicked ==> fsm.View() == Ends(fsm.role, |c1.states|)
  {
    tokens.PendingLexable();
    var semicolon := tokens.NextIf(Semicolon);
    if semicolon.Some? {
      c1 := Declare(tokens, fsm, c, left);
      return More, c1;
    }
    kind, c1 := ParseEdge(tokens, lex, refinements, c, left);
  }

  /** `while parse_entry(..).is_some() {}`. */
  method ParseEntries(tokens: Lexer, fsm: M.Fsm<string, E.Message>, lex: LabelLexer, refinements: bool)
    returns (kind: StepKind, c: Collected)
    requires tokens.Valid() && LexesLabels(lex) && fsm.View() == Ends(fsm.role, 0)
    modifies tokens, tokens.errors, fsm
    ensures tokens.Valid() && fsm.role == old(fsm.role)
    ensures var s := EntriesOf(old(TP.Now(tokens)), tokens.end, lex, refinements, Collected(map[], []));
      kind == s.kind && (kind != Panicked ==> c == s.c && TP.Now(tokens) == s.reader)
    ensures kind != Panicked ==> fsm.View() == Ends(fsm.role, |c.states|)
  {
    c := Collected(map[], []);
    tokens.PendingLexable();
    ghost var goal := EntriesOf(TP.Now(tokens), tokens.end, lex, refinements, c);
    while true
      invariant tokens.Valid() && fsm.role == old(fsm.role) && fsm.View() == Ends(fsm.role, |c.states|)
      invariant Lexable(tokens.pending) && EntriesOf(TP.Now(tokens), tokens.end, lex, refinements, c) == goal
      decreases |tokens.pending|
    {
      ghost var before := TP.Now(tokens);
      var c1;
      kind, c1 := ParseEntry(tokens, fsm, lex, refinements, c);
      if kind != More {
        return kind, c1;
      }
      c := c1;
      tokens.PendingLexable();
      assert |tokens.pending| < |before.pending|;
    }
  }

  /** One turn of the `for` over the transitions. */
  method ResolveOne(tokens: Lexer, fsm: M.Fsm<string, E.Message>, states: map<Identifier, nat>, x: Triple)
    requires tokens.Valid() && M.Valid(fsm.View()) && Indexes(states, fsm.View())
    modifies tokens.errors, fsm
    ensures tokens.Valid()
    ensures (fsm.View(), tokens.errors.items) == ResolveOneOf(old(fsm.View()), states, x, old(tokens.errors.items))
  {
    var span := Merge(x.0.span, x.1.span);
    if x.0.inner !in states {
      tokens.PushErr(x.0.span, Fsm(UndefinedState));
      return;
    }
    if x.1.inner !in states {
      tokens.PushErr(x.1.span, Fsm(UndefinedState));
      return;
    }
    var result := fsm.AddTransition(states[x.0.inner], states[x.1.inner], x.2);
    if result.Err? {
      tokens.PushErr(span, Fsm(AddTransition(result.error)));
    }
  }

  /** The `for` over the transitions, in the order the set holds them. */
  method Resolve(tokens: Lexer, fsm: M.Fsm<string, E.Message>, states: map<Identifier, nat>, ts: seq<Triple>)
    requires tokens.Valid() && M.Valid(fsm.View()) && Indexes(states, fsm.View())
    modifies tokens.errors, fsm
    ensures tokens.Valid()
    ensures (fsm.View(), tokens.errors.items) == ResolveOf(old(fsm.View()), states, ts, old(tokens.errors.items))
  {
    var i := 0;
    while i < |ts|
      invariant 0 <= i <= |ts| && tokens.Valid() && M.Valid(fsm.View()) && Indexes(states, fsm.View())
      invariant ResolveOf(fsm.View(), states, ts[i..], tokens.errors.items)
             == ResolveOf(old(fsm.View()), states, ts, old(tokens.errors.items))
    {
      assert ts[i..][1..] == ts[i + 1..];
      ResolveOne(tokens, fsm, states, ts[i]);
      i := i + 1;
    }
  }

  /** `{`, then the entries and the transitions. */
  method ParseBody(tokens: Lexer, lex: LabelLexer, refinements: bool, role: string)
    returns (fsm: Option<M.Fsm<string, E.Message>>, panicked: bool)
    requires tokens.Valid() && LexesLabels(lex)
    modifies tokens, tokens.errors
    ensures tokens.Valid()
    ensures var p := BodyOf(old(TP.Now(tokens)), tokens.end, lex, refinements, role);
      && (panicked <==> p.ParsePanicked?)
      && (!panicked ==> TP.Now(tokens) == p.reader && (fsm.Some? <==> p.graph.Some?))
      && (!panicked && fsm.Some? ==> fsm.value.View() == p.graph.value)
  {
    tokens.PendingLexable();
    var brace := tokens.ExpectNextIf(LeftBrace);
    if brace.None? {
      return None, false;
    }
    fsm, panicked := ParseGraph(tokens, lex, refinements, role);
  }

  /** The entries into a new FSM of the given role, then the transitions. */
  method ParseGraph(tokens: Lexer, lex: LabelLexer, refinements: bool, role: string)
    returns (fsm: Option<M.Fsm<string, E.Message>>, panicked: bool)
    requires tokens.Valid() && LexesLabels(lex)
    modifies tokens, tokens.errors
    ensures tokens.Valid()
    ensures var p := EntriesGraphOf(old(TP.Now(tokens)), tokens.end, lex, refinements, role);
      && (panicked <==> p.ParsePanicked?)
      && (!panicked ==> TP.Now(tokens) == p.reader && fsm.Some? && fsm.value.View() == p.graph.value)
  {
    ghost var r := TP.Now(tokens);
    var machine := new M.Fsm(role);
    assert TP.Now(tokens) == r;
    tokens.PendingLexable();
    var kind, c := ParseEntries(tokens, machine, lex, refinements);
    if kind == Panicked {
      return None, true;
    }
    ghost var reader := TP.Now(tokens);
    GraphFromEntries(r, tokens.end, lex, refinements, role, kind, c, reader);
    ghost var g := machine.View();
    assert g == Ends(role, |c.states|);
    Resolve(tokens, machine, c.states, c.transitions);
    assert TP.Now(tokens) == reader.(errors := tokens.errors.items);
    assert (machine.View(), tokens.errors.items) == ResolveOf(g, c.states, c.transitions, reader.errors);
    return Some(machine), false;
  }

  /** Entries read without a panic give the graph their transitions make of a new FSM with their states. */
  lemma GraphFromEntries(r: Reader, end: Span, lex: LabelLexer, refinements: bool, role: string,
                         kind: StepKind, c: Collected, reader: Reader)
    requires Lexable(r.pending) && LexesLabels(lex)
    requires EntriesOf(r, end, lex, refinements, Collected(map[], [])) == Step(kind, c, reader) && kind != Panicked
    ensures Sound(c) && M.Valid(Ends(role, |c.states|)) && Indexes(c.states, Ends(role, |c.states|))
    ensures var (g, errors) := ResolveOf(Ends(role, |c.states|), c.states, c.transitions, reader.errors);
      EntriesGraphOf(r, end, lex, refinements, role) == Parsed(Some(g), reader.(errors := errors))
  {
    EntriesSound(r, end, lex, refinements, Collected(map[], []));
  }

  /** `fsm::parse`: `digraph`, the role's name, then the body. */
  method Parse(tokens: Lexer, lex: LabelLexer, refinements: bool)
    returns (fsm: Option<M.Fsm<string, E.Message>>, panicked: bool)
    requires tokens.Valid() && LexesLabels(lex)
    modifies tokens, tokens.errors
    ensures tokens.Valid()
    ensures var p := DigraphOf(old(TP.Now(tokens)), tokens.end, lex, refinements);
      && (panicked <==> p.ParsePanicked?)
      && (!panicked ==> TP.Now(tokens) == p.reader && (fsm.Some? <==> p.graph.Some?))
      && (!panicked && fsm.Some? ==> fsm.value.View() == p.graph.value)
  {
    tokens.PendingLexable();
    var digraph := tokens.ExpectNextIf(Digraph);
    if digraph.None? {
      return None, false;
    }
    var role := tokens.ExpectNextIf(Identifier);
    if role.None? {
      return None, false;
    }
    fsm, panicked := ParseBody(tokens, lex, refinements, NameOf(role.value).inner.text);
  }

  // ---------------------------------------------------------------------
  // The iterator over the digraphs of a text

  /**
   * `ParseIter`: the lexer over the DOT text, with an error list that is
   * empty between FSMs.
   */
  class ParseIter {
    const tokens: Lexer
    const lex: LabelLexer
    const refinements: bool

    ghost predicate Valid()
      reads this, tokens, tokens.errors
    {
      tokens.Valid() && tokens.expected == [] && tokens.errors.items == [] && LexesLabels(lex)
    }

    /** `parse` and `parse_with_refinements`: a lexer over the text and a new error list. */
    constructor (input: seq<Spanned<Token>>, end: Span, lex: LabelLexer, refinements: bool)
      requires Lexable(input) && LexesLabels(lex)
      ensures Valid() && tokens.pending == input && tokens.end == end && fresh(tokens) && fresh(tokens.errors)
      ensures this.lex == lex && this.refinements == refinements
    {
      var errors := new ErrorSink();
      tokens := new Lexer(input, end, errors);
      this.lex := lex;
      this.refinements := refinements;
    }

    /**
     * `next`: nothing at the end of the text; otherwise one `digraph`, and
     * the FSM read if no error was reported, or else every error reported
     * while reading it. `panicked` stands for the panic on an unimplemented
     * label, after which nothing holds.
     */
    method Next() returns (item: Option<Result<M.Fsm<string, E.Message>, seq<Spanned<ParseError>>>>, panicked: bool)
      requires Valid()
      modifies tokens, tokens.errors
      ensures !panicked ==> Valid()
      ensures old(tokens.pending) == [] ==> item.None? && !panicked && tokens.pending == []
      ensures old(tokens.pending) != [] ==>
        var p := DigraphOf(Reader(old(tokens.pending), [], []), tokens.end, lex, refinements);
        && (panicked <==> p.ParsePanicked?)
        && (!panicked ==> item.Some? && tokens.pending == p.reader.pending)
        && (!panicked ==> (item.value.Err? <==> p.reader.errors != []))
        && (!panicked && item.value.Err? ==> item.value.error == p.reader.errors)
        && (!panicked && item.value.Ok? ==> p.graph.Some? && item.value.value.View() == p.graph.value)
    {
      tokens.PendingLexable();
      DropLexable(tokens.pending, tokens.end);
      var t := tokens.Peek();
      if t.inner.id == Eoi {
        return None, false;
      }
      ghost var r := TP.Now(tokens);
      assert r == Reader(old(tokens.pending), [], []);
      var fsm, panic := Parse(tokens, lex, refinements);
      if panic {
        return None, true;
      }
      ghost var p := DigraphOf(r, tokens.end, lex, refinements);
      assert TP.Now(tokens) == p.reader;
      tokens.Finish();
      var errors := tokens.errors.Take();
      assert errors == p.reader.errors && tokens.pending == p.reader.pending;
      if errors != [] {
        return Some(Err(errors)), false;
      }
      CleanIsGraph(r, tokens.end, lex, refinements);
      return Some(Ok(fsm.value)), false;
    }
  }
}
