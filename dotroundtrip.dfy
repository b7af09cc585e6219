/**
 * What the DOT parser of src/fsm/dot.rs promises: a machine printed by
 * `Display for Dot` parses back to the same machine, adding the collected
 * transitions reports each failure, and the errors shown by small inputs.
 */
module DotRoundTrip {
  import opened Wrappers
  import opened DotTokens
  import opened DotParse
  import Machine
  import Text

  // ---------------------------------------------------------------------
  // Adding the collected transitions

  /** The collected transitions with their endpoints replaced by state indices. */
  function Placed(m: map<string, nat>, ts: seq<Triple>): (r: seq<(nat, nat, Machine.Transition<string, string>)>)
    requires forall k :: 0 <= k < |ts| ==> ts[k].0 in m && ts[k].1 in m
    ensures |r| == |ts|
    ensures forall k :: 0 <= k < |ts| ==> r[k] == (m[ts[k].0], m[ts[k].1], ts[k].2)
  {
    seq(|ts|, k requires 0 <= k < |ts| => (m[ts[k].0], m[ts[k].1], ts[k].2))
  }

  /** Adding the transitions succeeds only when every endpoint was declared. */
  lemma {:induction false} ResolveDeclared(g: Machine.Graph<string, string>, m: map<string, nat>, ts: seq<Triple>)
    requires Numbers(g, m) && Resolve(g, m, ts).Ok?
    ensures forall k :: 0 <= k < |ts| ==> ts[k].0 in m && ts[k].1 in m
    decreases |ts|
  {
    if ts != [] {
      var (from, to, t) := ts[0];
      Machine.AddTransitionOutcome(g, m[from], m[to], t);
      var (r, h) := Machine.AddTransitionTo(g, m[from], m[to], t);
      ResolveDeclared(h, m, ts[1..]);
      forall k | 1 <= k < |ts| ensures ts[k].0 in m && ts[k].1 in m {
        assert ts[k] == ts[1..][k - 1];
      }
    }
  }

  /** On success the machine gains exactly the collected transitions, in order, and keeps its states and role. */
  lemma {:induction false} ResolveAdds(g: Machine.Graph<string, string>, m: map<string, nat>, ts: seq<Triple>)
    requires Machine.Valid(g) && Numbers(g, m) && Resolve(g, m, ts).Ok?
    ensures forall k :: 0 <= k < |ts| ==> ts[k].0 in m && ts[k].1 in m
    ensures var h := Resolve(g, m, ts).value;
            Machine.Valid(h) && h.role == g.role && |h.states| == |g.states|
            && Machine.Transitions(h) == Machine.Transitions(g) + Placed(m, ts)
    decreases |ts|
  {
    ResolveDeclared(g, m, ts);
    if ts == [] {
      assert Placed(m, ts) == [];
    } else {
      var e := (m[ts[0].0], m[ts[0].1], ts[0].2);
      ResolveHead(g, m, ts);
      Machine.AddTransitionListed(g, e.0, e.1, e.2);
      var h := Machine.AddTransitionTo(g, e.0, e.1, e.2).1;
      ResolveAdds(h, m, ts[1..]);
      PlacedCons(m, ts);
      AppendOne(Machine.Transitions(g), e, Placed(m, ts[1..]));
    }
  }

  /** A first transition whose endpoints are declared and that is added leaves the rest to be added to the grown machine. */
  lemma ResolveHead(g: Machine.Graph<string, string>, m: map<string, nat>, ts: seq<Triple>)
    requires Numbers(g, m) && ts != [] && ts[0].0 in m && ts[0].1 in m && Resolve(g, m, ts).Ok?
    ensures var h := Machine.AddTransitionTo(g, m[ts[0].0], m[ts[0].1], ts[0].2);
      && h.0.Ok? && Numbers(h.1, m) && h.1.role == g.role && |h.1.states| == |g.states|
      && Resolve(g, m, ts) == Resolve(h.1, m, ts[1..])
  {
    Machine.AddTransitionOutcome(g, m[ts[0].0], m[ts[0].1], ts[0].2);
  }

  lemma PlacedCons(m: map<string, nat>, ts: seq<Triple>)
    requires ts != [] && forall k :: 0 <= k < |ts| ==> ts[k].0 in m && ts[k].1 in m
    ensures Placed(m, ts) == [(m[ts[0].0], m[ts[0].1], ts[0].2)] + Placed(m, ts[1..])
  {
    assert forall k :: 1 <= k < |ts| ==> ts[1..][k - 1] == ts[k];
  }

  lemma AppendOne<T>(a: seq<T>, x: T, b: seq<T>)
    ensures a + [x] + b == a + ([x] + b)
  {
  }

  /** An `UndefinedState` error names an endpoint of some collected transition that was never declared. */
  lemma {:induction false} ResolveUndefined(g: Machine.Graph<string, string>, m: map<string, nat>, ts: seq<Triple>, x: string)
    requires Numbers(g, m) && Resolve(g, m, ts) == Err(UndefinedState(x))
    ensures x !in m && exists k :: 0 <= k < |ts| && (ts[k].0 == x || ts[k].1 == x)
    decreases |ts|
  {
    var (from, to, t) := ts[0];
    if from in m && to in m {
      Machine.AddTransitionOutcome(g, m[from], m[to], t);
      var (r, h) := Machine.AddTransitionTo(g, m[from], m[to], t);
      ResolveUndefined(h, m, ts[1..], x);
      var k :| 0 <= k < |ts[1..]| && (ts[1..][k].0 == x || ts[1..][k].1 == x);
      assert ts[k + 1] == ts[1..][k];
    }
  }

  // ---------------------------------------------------------------------
  // The tokens of a printed machine

  /** A keyword or punctuation token. */
  function Punct(kind: TokenId, text: string): Lexeme {
    Lexeme(kind, text, text)
  }

  /** A state number, which the lexer reads as an identifier. */
  function NumberLexeme(n: nat): Lexeme {
    Lexeme(Identifier, Text.NatToString(n), Text.NatToString(n))
  }

  /** A quoted identifier `"s"`, whose value is `literal`'s result. */
  function QuotedLexeme(s: string): Lexeme {
    Lexeme(Identifier, Unescape(s), "\"" + s + "\"")
  }

  /** `    i;` for the states `lo .. n`. */
  function StateLexemes(lo: nat, n: nat): seq<Lexeme>
    decreases n - lo
  {
    if lo >= n then [] else [NumberLexeme(lo), Punct(Semicolon, ";")] + StateLexemes(lo + 1, n)
  }

  /** `    f -> t [label="role!label"];` */
  function EdgeLexemes(e: (nat, nat, Machine.Transition<string, string>)): seq<Lexeme> {
    [NumberLexeme(e.0), Punct(Arrow, "->"), NumberLexeme(e.1), Punct(LeftSquare, "["), Punct(Label, "label"),
     Punct(Equal, "="), QuotedLexeme(TransitionText(e.2)), Punct(RightSquare, "]"), Punct(Semicolon, ";")]
  }

  function AllEdgeLexemes(ts: seq<(nat, nat, Machine.Transition<string, string>)>): seq<Lexeme> {
    if ts == [] then [] else EdgeLexemes(ts[0]) + AllEdgeLexemes(ts[1..])
  }

  /** The tokens of the text `Display for Dot` prints for `g`. */
  function DotLexemes(g: Machine.Graph<string, string>): seq<Lexeme>
    requires Machine.Valid(g)
  {
    [Punct(Digraph, "digraph"), QuotedLexeme(g.role), Punct(LeftBrace, "{")]
      + (StateLexemes(0, |g.states|) + (AllEdgeLexemes(Machine.Transitions(g)) + [Punct(RightBrace, "}")]))
  }

  predicate NoQuote(s: string) {
    forall i :: 0 <= i < |s| ==> s[i] != '"'
  }

  /**
   * The machines whose printed text reads back: the role has no quote and
   * is not the keyword `label`; every transition is readable by
   * `parse_transition` and has no quote; no transition is listed twice;
   * and every state that offers choices has an edge.
   */
  ghost predicate Printable(g: Machine.Graph<string, string>) {
    Machine.Valid(g) && NoQuote(g.role) && g.role != "label"
    && (forall i :: 0 <= i < |g.edges| ==>
          Readable(Machine.TransitionOf(g, i)) && NoQuote(TransitionText(Machine.TransitionOf(g, i))))
    && (forall i, j :: 0 <= i < j < |g.edges| ==> Machine.Transitions(g)[i] != Machine.Transitions(g)[j])
    && (forall s :: 0 <= s < |g.states| && g.states[s].Choices? ==>
          exists i :: 0 <= i < |g.edges| && g.edges[i].source == s)
  }

  // ---------------------------------------------------------------------
  // Reading the tokens back

  /** The numbering of the states `0 .. n` by their printed numbers. */
  function StatesMap(n: nat): map<string, nat> {
    if n == 0 then map[] else StatesMap(n - 1)[Text.NatToString(n - 1) := n - 1]
  }

  lemma {:induction false} StatesMapFacts(n: nat)
    ensures |StatesMap(n)| == n
    ensures forall k :: 0 <= k < n ==> Text.NatToString(k) in StatesMap(n) && StatesMap(n)[Text.NatToString(k)] == k
    ensures forall k :: k >= n ==> Text.NatToString(k) !in StatesMap(n)
    ensures forall x :: x in StatesMap(n) ==> StatesMap(n)[x] < n
  {
    if n > 0 {
      StatesMapFacts(n - 1);
      forall k: nat | k != n - 1 ensures Text.NatToString(k) != Text.NatToString(n - 1) {
        Text.NatToStringDistinct(k, n - 1);
      }
    }
  }

  lemma HeaderRead(role: string, rest: seq<Lexeme>)
    requires NoQuote(role)
    ensures HeaderOf([Punct(Digraph, "digraph"), QuotedLexeme(role), Punct(LeftBrace, "{")] + rest) == Parsed(Ok(role), rest)
  {
    NoQuoteUnescape(role);
    var ts := [Punct(Digraph, "digraph"), QuotedLexeme(role), Punct(LeftBrace, "{")] + rest;
    assert Drop(ts) == [QuotedLexeme(role), Punct(LeftBrace, "{")] + rest;
    assert Drop(Drop(ts)) == [Punct(LeftBrace, "{")] + rest;
    assert Drop(Drop(Drop(ts))) == rest;
  }

  lemma DeclareRead(n: nat, rest: seq<Lexeme>)
    ensures EntryOf([NumberLexeme(n), Punct(Semicolon, ";")] + rest) == Parsed(Ok(Declare(Text.NatToString(n))), rest)
  {
    var ts := [NumberLexeme(n), Punct(Semicolon, ";")] + rest;
    assert Drop(ts) == [Punct(Semicolon, ";")] + rest;
    assert Drop(Drop(ts)) == rest;
  }

  /** The tokens `a -> b [label = t` of any transition entry. */
  lemma ConnectShape(ts: seq<Lexeme>, t: Machine.Transition<string, string>)
    requires |ts| >= 7 && ts[0].kind == Identifier && ts[1].kind == Arrow && ts[2].kind == Identifier
    requires ts[3].kind == LeftSquare && ts[4].kind == Label && ts[5].kind == Equal && ts[6].kind == Identifier
    requires ParseTransition(ts[6].text) == Some(t)
    ensures EntryOf(ts) == Parsed(Ok(Connect(ts[0].text, ts[2].text, t)), ts[7..])
  {
    assert Drop(ts) == ts[1..];
    assert Drop(ts[1..]) == ts[2..];
    assert Drop(ts[2..]) == ts[3..];
    assert Drop(ts[3..]) == ts[4..];
    assert Drop(ts[4..]) == ts[5..];
    assert Drop(ts[5..]) == ts[6..];
    assert Drop(ts[6..]) == ts[7..];
  }

  lemma EdgeTokens(e: (nat, nat, Machine.Transition<string, string>), rest: seq<Lexeme>)
    ensures var ts := EdgeLexemes(e) + rest;
      |ts| >= 7 && ts[0] == NumberLexeme(e.0) && ts[1].kind == Arrow && ts[2] == NumberLexeme(e.1)
      && ts[3].kind == LeftSquare && ts[4].kind == Label && ts[5].kind == Equal
      && ts[6] == QuotedLexeme(TransitionText(e.2))
      && ts[7..] == [Punct(RightSquare, "]"), Punct(Semicolon, ";")] + rest
  {
    var ts := EdgeLexemes(e) + rest;
    assert ts[7..] == EdgeLexemes(e)[7..] + rest;
  }

  lemma ConnectRead(e: (nat, nat, Machine.Transition<string, string>), rest: seq<Lexeme>)
    requires Readable(e.2) && NoQuote(TransitionText(e.2))
    ensures EntryOf(EdgeLexemes(e) + rest)
      == Parsed(Ok(Connect(Text.NatToString(e.0), Text.NatToString(e.1), e.2)),
                [Punct(RightSquare, "]"), Punct(Semicolon, ";")] + rest)
  {
    NoQuoteUnescape(TransitionText(e.2));
    ParseTransitionComplete(e.2);
    EdgeTokens(e, rest);
    ConnectShape(EdgeLexemes(e) + rest, e.2);
  }

  lemma TailRead(rest: seq<Lexeme>)
    ensures TailOf([Punct(RightSquare, "]"), Punct(Semicolon, ";")] + rest) == Parsed(Ok(()), rest)
  {
    var ts := [Punct(RightSquare, "]"), Punct(Semicolon, ";")] + rest;
    assert Drop(ts) == [Punct(Semicolon, ";")] + rest;
    assert Drop(Drop(ts)) == rest;
  }

  /** The state lines declare the states `lo .. n` in order. */
  lemma {:induction false} CollectStates(lo: nat, n: nat, rest: seq<Lexeme>)
    requires lo <= n
    ensures Collect(StateLexemes(lo, n) + rest, StatesMap(lo), []) == Collect(rest, StatesMap(n), [])
    decreases n - lo
  {
    if lo < n {
      var next := StateLexemes(lo + 1, n) + rest;
      StateLexemesCons(lo, n, rest);
      DeclareRead(lo, next);
      StatesMapNext(lo);
      CollectDeclare([NumberLexeme(lo), Punct(Semicolon, ";")] + next, StatesMap(lo), [], Text.NatToString(lo), next);
      CollectStates(lo + 1, n, rest);
    } else {
      assert StateLexemes(lo, n) + rest == rest;
    }
  }

  lemma StateLexemesCons(lo: nat, n: nat, rest: seq<Lexeme>)
    requires lo < n
    ensures StateLexemes(lo, n) + rest == [NumberLexeme(lo), Punct(Semicolon, ";")] + (StateLexemes(lo + 1, n) + rest)
  {
  }

  /** The next state's number is new, and declaring it numbers one more state. */
  lemma StatesMapNext(lo: nat)
    ensures Text.NatToString(lo) !in StatesMap(lo)
    ensures StatesMap(lo)[Text.NatToString(lo) := |StatesMap(lo)|] == StatesMap(lo + 1)
  {
    StatesMapFacts(lo);
  }

  /** One turn of the entry loop over a state entry that is new. */
  lemma CollectDeclare(ts: seq<Lexeme>, m: map<string, nat>, seen: seq<Triple>, x: string, rest: seq<Lexeme>)
    requires EntryOf(ts) == Parsed(Ok(Declare(x)), rest) && x !in m
    ensures Collect(ts, m, seen) == Collect(rest, m[x := |m|], seen)
  {
  }

  /** The printed numbers of an edge list. */
  function Named(ts: seq<(nat, nat, Machine.Transition<string, string>)>): (r: seq<Triple>)
    ensures |r| == |ts|
    ensures forall k :: 0 <= k < |ts| ==> r[k] == (Text.NatToString(ts[k].0), Text.NatToString(ts[k].1), ts[k].2)
  {
    seq(|ts|, k requires 0 <= k < |ts| => (Text.NatToString(ts[k].0), Text.NatToString(ts[k].1), ts[k].2))
  }

  lemma NamedDistinct(ts: seq<(nat, nat, Machine.Transition<string, string>)>, k: nat)
    requires k < |ts| && forall i, j :: 0 <= i < j < |ts| ==> ts[i] != ts[j]
    ensures Named(ts)[k] !in Named(ts[..k])
  {
    forall j | 0 <= j < k ensures Named(ts[..k])[j] != Named(ts)[k] {
      if ts[j].0 != ts[k].0 {
        Text.NatToStringDistinct(ts[j].0, ts[k].0);
      } else if ts[j].1 != ts[k].1 {
        Text.NatToStringDistinct(ts[j].1, ts[k].1);
      }
    }
  }

  /** One turn of the entry loop over a transition entry that is new. */
  lemma CollectConnect(ts: seq<Lexeme>, m: map<string, nat>, seen: seq<Triple>, x: Triple, after: seq<Lexeme>, rest: seq<Lexeme>)
    requires EntryOf(ts) == Parsed(Ok(Connect(x.0, x.1, x.2)), after) && x !in seen
    requires TailOf(after) == Parsed(Ok(()), rest)
    ensures Collect(ts, m, seen) == Collect(rest, m, seen + [x])
  {
  }

  /** The closing brace ends the entry loop. */
  lemma CollectClose(rest: seq<Lexeme>, m: map<string, nat>, seen: seq<Triple>)
    ensures Collect([Punct(RightBrace, "}")] + rest, m, seen) == Parsed(Ok((m, seen)), rest)
  {
    var ts := [Punct(RightBrace, "}")] + rest;
    assert Drop(ts) == rest;
  }

  /** The transition lines collect every edge, in order, and then the closing brace ends the loop. */
  lemma {:induction false} CollectEdges(ts: seq<(nat, nat, Machine.Transition<string, string>)>, k: nat, m: map<string, nat>, rest: seq<Lexeme>)
    requires k <= |ts|
    requires forall i :: 0 <= i < |ts| ==> Readable(ts[i].2) && NoQuote(TransitionText(ts[i].2))
    requires forall i, j :: 0 <= i < j < |ts| ==> ts[i] != ts[j]
    ensures Collect(AllEdgeLexemes(ts[k..]) + ([Punct(RightBrace, "}")] + rest), m, Named(ts[..k]))
      == Parsed(Ok((m, Named(ts))), rest)
    decreases |ts| - k
  {
    if k == |ts| {
      assert ts[k..] == [] && ts[..k] == ts;
      assert AllEdgeLexemes(ts[k..]) + ([Punct(RightBrace, "}")] + rest) == [Punct(RightBrace, "}")] + rest;
      CollectClose(rest, m, Named(ts));
    } else {
      var later := AllEdgeLexemes(ts[k + 1..]) + ([Punct(RightBrace, "}")] + rest);
      EdgesCons(ts, k, [Punct(RightBrace, "}")] + rest);
      NamedDistinct(ts, k);
      CollectEdge(ts[k], later, m, Named(ts[..k]));
      NamedSnoc(ts, k);
      CollectEdges(ts, k + 1, m, rest);
    }
  }

  /** The lexemes of the edges from `k` on are those of edge `k`, then those of the rest. */
  lemma EdgesCons(ts: seq<(nat, nat, Machine.Transition<string, string>)>, k: nat, tail: seq<Lexeme>)
    requires k < |ts|
    ensures AllEdgeLexemes(ts[k..]) + tail == EdgeLexemes(ts[k]) + (AllEdgeLexemes(ts[k + 1..]) + tail)
  {
    assert ts[k..][1..] == ts[k + 1..];
  }

  lemma NamedSnoc(ts: seq<(nat, nat, Machine.Transition<string, string>)>, k: nat)
    requires k < |ts|
    ensures Named(ts[..k]) + [Named(ts)[k]] == Named(ts[..k + 1])
  {
    assert Named(ts[..k]) + [Named(ts)[k]] == Named(ts[..k + 1]);
  }

  /** A transition line not read before is collected, and the loop goes on after it. */
  lemma CollectEdge(e: (nat, nat, Machine.Transition<string, string>), later: seq<Lexeme>, m: map<string, nat>, seen: seq<Triple>)
    requires Readable(e.2) && NoQuote(TransitionText(e.2))
    requires (Text.NatToString(e.0), Text.NatToString(e.1), e.2) !in seen
    ensures Collect(EdgeLexemes(e) + later, m, seen) == Collect(later, m, seen + [(Text.NatToString(e.0), Text.NatToString(e.1), e.2)])
  {
    ConnectRead(e, later);
    TailRead(later);
    CollectConnect(EdgeLexemes(e) + later, m, seen, (Text.NatToString(e.0), Text.NatToString(e.1), e.2),
      [Punct(RightSquare, "]"), Punct(Semicolon, ";")] + later, later);
  }

  // ---------------------------------------------------------------------
  // Adding the edges rebuilds the machine

  ghost predicate HasEdge(g: Machine.Graph<string, string>, s: nat, k: nat) {
    exists i :: 0 <= i < k && i < |g.edges| && g.edges[i].source == s
  }

  /** The machine after the first `k` edges were added to fresh `End` states. */
  ghost function Partial(g: Machine.Graph<string, string>, k: nat): Machine.Graph<string, string>
    requires k <= |g.edges|
  {
    Machine.Graph(g.role, seq(|g.states|, s requires 0 <= s < |g.states| => if HasEdge(g, s, k) then g.states[s] else Machine.End),
      g.edges[..k])
  }

  lemma PartialStep(g: Machine.Graph<string, string>, k: nat)
    requires Machine.Valid(g) && k < |g.edges|
    ensures var e := g.edges[k];
      Machine.AddTransitionTo(Partial(g, k), e.source, e.target, Machine.TransitionOf(g, k)) == (Ok(()), Partial(g, k + 1))
  {
    var e := g.edges[k];
    var p := Partial(g, k);
    var q := Partial(g, k + 1);
    var t := Machine.TransitionOf(g, k);
    assert t.role != g.role;
    assert HasEdge(g, e.source, k + 1);
    forall s | 0 <= s < |g.states| && s != e.source ensures HasEdge(g, s, k + 1) == HasEdge(g, s, k) {
      if HasEdge(g, s, k + 1) {
        var i :| 0 <= i < k + 1 && i < |g.edges| && g.edges[i].source == s;
        assert i < k;
      }
    }
    assert g.edges[..k] + [Machine.Edge(e.source, e.target, t.message)] == g.edges[..k + 1];
    match p.states[e.source]
    case End =>
      assert p.states[e.source := Machine.Choices(t.role, t.action)] == q.states;
    case Choices(_, _) =>
      assert HasEdge(g, e.source, k);
      assert p.states == q.states;
  }

  lemma {:induction false} ResolveBuild(g: Machine.Graph<string, string>, k: nat)
    requires Printable(g) && k <= |g.edges|
    ensures Numbers(Partial(g, k), StatesMap(|g.states|))
    ensures forall i :: 0 <= i < |g.edges| ==>
      Named(Machine.Transitions(g))[i].0 in StatesMap(|g.states|) && Named(Machine.Transitions(g))[i].1 in StatesMap(|g.states|)
    ensures Resolve(Partial(g, k), StatesMap(|g.states|), Named(Machine.Transitions(g))[k..]) == Ok(g)
    decreases |g.edges| - k
  {
    StatesMapFacts(|g.states|);
    var m := StatesMap(|g.states|);
    var named := Named(Machine.Transitions(g));
    if k == |g.edges| {
      assert named[k..] == [];
      var p := Partial(g, k);
      forall s | 0 <= s < |g.states| ensures p.states[s] == g.states[s] {
        if g.states[s].Choices? {
          var i :| 0 <= i < |g.edges| && g.edges[i].source == s;
          assert HasEdge(g, s, k);
        } else {
          assert !HasEdge(g, s, k);
        }
      }
      assert p.edges == g.edges && p.states == g.states;
    } else {
      var e := g.edges[k];
      assert named[k] == (Text.NatToString(e.source), Text.NatToString(e.target), Machine.TransitionOf(g, k));
      assert m[Text.NatToString(e.source)] == e.source && m[Text.NatToString(e.target)] == e.target;
      PartialStep(g, k);
      assert named[k..][1..] == named[k + 1..];
      ResolveBuild(g, k + 1);
    }
  }

  /** The body's state and transition lines, read after the header, collect every state and every edge. */
  lemma BodyRead(g: Machine.Graph<string, string>)
    requires Printable(g)
    ensures Collect(StateLexemes(0, |g.states|) + (AllEdgeLexemes(Machine.Transitions(g)) + [Punct(RightBrace, "}")]), map[], [])
      == Parsed(Ok((StatesMap(|g.states|), Named(Machine.Transitions(g)))), [])
  {
    var edges := Machine.Transitions(g);
    var close := [Punct(RightBrace, "}")];
    CollectStates(0, |g.states|, AllEdgeLexemes(edges) + close);
    assert edges[0..] == edges && edges[..0] == [];
    assert Named(edges[..0]) == [];
    forall i | 0 <= i < |edges| ensures Readable(edges[i].2) && NoQuote(TransitionText(edges[i].2)) {
      assert edges[i].2 == Machine.TransitionOf(g, i);
    }
    assert close + [] == close;
    CollectEdges(edges, 0, StatesMap(|g.states|), []);
  }

  /**
   * Printing a machine as DOT and parsing the printed tokens gives the
   * same machine back, with nothing left over, for every printable
   * machine.
   */
  lemma DotRoundTrip(g: Machine.Graph<string, string>)
    requires Printable(g)
    ensures GraphOf(DotLexemes(g), true) == Parsed(Ok(g), [])
  {
    var n := |g.states|;
    var body := StateLexemes(0, n) + (AllEdgeLexemes(Machine.Transitions(g)) + [Punct(RightBrace, "}")]);
    HeaderRead(g.role, body);
    BodyRead(g);
    StatesMapFacts(n);
    ResolveBuild(g, 0);
    assert Partial(g, 0) == Machine.Graph(g.role, Ends(n), []) by {
      forall s | 0 <= s < n ensures !HasEdge(g, s, 0) {
      }
    }
    var named := Named(Machine.Transitions(g));
    assert named[0..] == named;
    GraphRead(DotLexemes(g), g.role, body, StatesMap(n), named, g);
  }

  /** The header, then a body collected with nothing left over, then a resolution that succeeds: the graph is read. */
  lemma GraphRead(ts: seq<Lexeme>, role: string, body: seq<Lexeme>, states: map<string, nat>, transitions: seq<Triple>,
                  g: Machine.Graph<string, string>)
    requires HeaderOf(ts) == Parsed(Ok(role), body)
    requires Collect(body, map[], []) == Parsed(Ok((states, transitions)), [])
    requires Numbers(Machine.Graph(role, Ends(|states|), []), states)
    requires Resolve(Machine.Graph(role, Ends(|states|), []), states, transitions) == Ok(g)
    ensures GraphOf(ts, true) == Parsed(Ok(g), [])
  {
  }

  // ---------------------------------------------------------------------
  // Small inputs

  function Word(s: string): Lexeme {
    Lexeme(Identifier, s, s)
  }

  /** A state declared twice in a row makes the graph fail with `DuplicateState`, whatever follows. */
  lemma DuplicateDeclaration(role: string, x: string, rest: seq<Lexeme>, checkEnd: bool)
    ensures GraphOf([Punct(Digraph, "digraph"), Word(role), Punct(LeftBrace, "{")]
                    + ([Word(x), Punct(Semicolon, ";")] + ([Word(x), Punct(Semicolon, ";")] + rest)), checkEnd).result
      == Err(DuplicateState(x))
  {
    var second := [Word(x), Punct(Semicolon, ";")] + rest;
    var body := [Word(x), Punct(Semicolon, ";")] + second;
    HeaderWord(role, body);
    DeclareWord(x, second);
    CollectDeclare(body, map[], [], x, second);
    DeclareWord(x, rest);
    CollectDuplicate(second, map[x := 0], [], x, rest);
    GraphCollectFails([Punct(Digraph, "digraph"), Word(role), Punct(LeftBrace, "{")] + body, checkEnd, role, body, DuplicateState(x));
  }

  /** `digraph role {` read as the header, with the role as a plain word. */
  lemma HeaderWord(role: string, rest: seq<Lexeme>)
    ensures HeaderOf([Punct(Digraph, "digraph"), Word(role), Punct(LeftBrace, "{")] + rest) == Parsed(Ok(role), rest)
  {
    var ts := [Punct(Digraph, "digraph"), Word(role), Punct(LeftBrace, "{")] + rest;
    assert Drop(ts) == [Word(role), Punct(LeftBrace, "{")] + rest;
    assert Drop(Drop(ts)) == [Punct(LeftBrace, "{")] + rest;
    assert Drop(Drop(Drop(ts))) == rest;
  }

  /** `x;` read as the declaration of state `x`. */
  lemma DeclareWord(x: string, rest: seq<Lexeme>)
    ensures EntryOf([Word(x), Punct(Semicolon, ";")] + rest) == Parsed(Ok(Declare(x)), rest)
  {
    var ts := [Word(x), Punct(Semicolon, ";")] + rest;
    assert Drop(ts) == [Punct(Semicolon, ";")] + rest;
    assert Drop(Drop(ts)) == rest;
  }

  /** A state entry whose name was declared before ends the loop with `DuplicateState`. */
  lemma CollectDuplicate(ts: seq<Lexeme>, m: map<string, nat>, seen: seq<Triple>, x: string, rest: seq<Lexeme>)
    requires EntryOf(ts) == Parsed(Ok(Declare(x)), rest) && x in m
    ensures Collect(ts, m, seen).result == Err(DuplicateState(x))
  {
  }

  /** After a header that reads, a failure of the entry loop is the graph's failure. */
  lemma GraphCollectFails(ts: seq<Lexeme>, checkEnd: bool, role: string, body: seq<Lexeme>, e: ParseError)
    requires HeaderOf(ts) == Parsed(Ok(role), body) && Collect(body, map[], []).result == Err(e)
    ensures GraphOf(ts, checkEnd).result == Err(e)
  {
  }

  /** `digraph G { } x`: `parse` rejects the trailing token, `parse_one` leaves it for the next graph. */
  lemma TrailingTokenExample()
    ensures GraphOf([Punct(Digraph, "digraph"), Word("G"), Punct(LeftBrace, "{"), Punct(RightBrace, "}"), Word("x")], true).result
      == Err(UnexpectedToken([Eoi], Some("x")))
    ensures GraphOf([Punct(Digraph, "digraph"), Word("G"), Punct(LeftBrace, "{"), Punct(RightBrace, "}"), Word("x")], false)
      == Parsed(Ok(Machine.Graph("G", [], [])), [Word("x")])
  {
  }

  /** A missing header keyword, role or brace is reported with the one kind expected there. */
  lemma HeaderErrors(ts: seq<Lexeme>, checkEnd: bool)
    ensures (ts == [] || ts[0].kind != Digraph) ==>
      GraphOf(ts, checkEnd).result == Err(UnexpectedToken([Digraph], if ts == [] then None else Some(ts[0].slice)))
    ensures (|ts| >= 2 && ts[0].kind == Digraph && ts[1].kind != Identifier) ==>
      GraphOf(ts, checkEnd).result == Err(UnexpectedToken([Identifier], Some(ts[1].slice)))
    ensures (|ts| >= 3 && ts[0].kind == Digraph && ts[1].kind == Identifier && ts[2].kind != LeftBrace) ==>
      GraphOf(ts, checkEnd).result == Err(UnexpectedToken([LeftBrace], Some(ts[2].slice)))
  {
    var header := HeaderOf(ts);
    assert header.result.Err? ==> GraphOf(ts, checkEnd).result == Err(header.result.error);
  }
}
