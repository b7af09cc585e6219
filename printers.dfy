/** The Graphviz DOT and Petrify renderings of an FSM. */
module Printers {
  import opened Machine
  import Text
  import Expressions

  /** `Display for Transition`: role, action and label run together, e.g. `B!msg`. */
  function TransitionText(t: Transition<string, string>): string {
    t.role + ActionText(t.action) + t.message
  }

  function StateLine(i: nat): string {
    Text.Concat(["    ", Text.NatToString(i), ";"]) + "\n"
  }

  /** One `    i;` line per state, in state order. */
  function StateLines(n: nat): string {
    if n == 0 then "" else StateLines(n - 1) + StateLine(n - 1)
  }

  function EdgePieces(e: (nat, nat, Transition<string, string>)): seq<string> {
    ["    ", Text.NatToString(e.0), " -> ", Text.NatToString(e.1), " [label=\"", e.2.role, ActionText(e.2.action), e.2.message, "\"];"]
  }

  function EdgeLine(e: (nat, nat, Transition<string, string>)): string {
    Text.Concat(EdgePieces(e)) + "\n"
  }

  /** One `    f -> t [label="..."];` line per transition, in edge order. */
  function EdgeLines(ts: seq<(nat, nat, Transition<string, string>)>): string {
    if ts == [] then "" else EdgeLines(ts[..|ts| - 1]) + EdgeLine(ts[|ts| - 1])
  }

  lemma EdgeLinesSnoc(ts: seq<(nat, nat, Transition<string, string>)>, i: nat)
    requires i < |ts|
    ensures EdgeLines(ts[..i + 1]) == EdgeLines(ts[..i]) + EdgeLine(ts[i])
  {
    assert ts[..i + 1][..i] == ts[..i];
  }

  /**
   * The header. The older printer (src/fsm.rs) writes the role bare; the
   * newer ones put it in double quotes.
   */
  function DotHeader(role: string, quoted: bool): string {
    var q := if quoted then "\"" else "";
    "digraph " + (q + (role + (q + " {")))
  }

  /** `Display for Dot`. */
  function DotText(g: Graph<string, string>, quoted: bool): (r: string)
    requires Valid(g)
    ensures DotHeader(g.role, quoted) <= r && r[|r| - 1] == '}'
  {
    DotHeader(g.role, quoted)
      + ((if |g.states| > 0 then "\n" else "") + (StateLines(|g.states|)
      + ((if |g.edges| > 0 then "\n" else "") + (EdgeLines(Transitions(g)) + "}"))))
  }

  /** The loop over the states: one `    i;` line each. */
  method WriteStates(n: nat) returns (out: string)
    ensures out == StateLines(n)
  {
    out := "";
    var i := 0;
    while i < n
      invariant 0 <= i <= n && out == StateLines(i)
    {
      out := out + StateLine(i);
      i := i + 1;
    }
  }

  /** The loop over the transitions: one `    f -> t [label="..."];` line each. */
  method WriteEdges(ts: seq<(nat, nat, Transition<string, string>)>) returns (out: string)
    ensures out == EdgeLines(ts)
  {
    out := "";
    var j := 0;
    while j < |ts|
      invariant 0 <= j <= |ts| && out == EdgeLines(ts[..j])
    {
      EdgeLinesSnoc(ts, j);
      out := out + EdgeLine(ts[j]);
      j := j + 1;
    }
    assert ts[..|ts|] == ts;
  }

  /** The DOT printer: the header, the state lines, the transition lines, then `}`. */
  method Dot(fsm: Fsm<string, string>, quoted: bool) returns (out: string)
    requires Valid(fsm.View())
    ensures out == DotText(fsm.View(), quoted)
  {
    var g := fsm.View();
    var (states, transitions) := fsm.Size();
    var stateLines := WriteStates(states);
    var edgeLines := WriteEdges(Transitions(g));
    out := DotHeader(g.role, quoted)
      + ((if states > 0 then "\n" else "") + (stateLines
      + ((if transitions > 0 then "\n" else "") + (edgeLines + "}"))));
  }

  function CountNewlines(s: string): nat {
    if s == [] then 0 else CountNewlines(s[..|s| - 1]) + (if s[|s| - 1] == '\n' then 1 else 0)
  }

  lemma {:induction false} CountNewlinesAppend(a: string, b: string)
    ensures CountNewlines(a + b) == CountNewlines(a) + CountNewlines(b)
    decreases |b|
  {
    if b == [] {
      assert a + b == a;
    } else {
      assert (a + b)[..|a + b| - 1] == a + b[..|b| - 1];
      CountNewlinesAppend(a, b[..|b| - 1]);
    }
  }

  predicate NoNewline(s: string) {
    forall i :: 0 <= i < |s| ==> s[i] != '\n'
  }

  lemma NoNewlineCount(s: string)
    requires NoNewline(s)
    ensures CountNewlines(s) == 0
    decreases |s|
  {
    if s != [] {
      NoNewlineCount(s[..|s| - 1]);
    }
  }

  lemma DigitsNoNewline(n: nat)
    ensures NoNewline(Text.NatToString(n))
  {
    var s := Text.NatToString(n);
    forall i | 0 <= i < |s| ensures s[i] != '\n' {
      assert Text.IsDigit(s[i]);
    }
  }

  lemma {:induction false} StateLinesCount(n: nat)
    ensures CountNewlines(StateLines(n)) == n
  {
    if n > 0 {
      StateLinesCount(n - 1);
      DigitsNoNewline(n - 1);
      PiecesCount(["    ", Text.NatToString(n - 1), ";"]);
      CountNewlinesAppend(Text.Concat(["    ", Text.NatToString(n - 1), ";"]), "\n");
      CountNewlinesAppend(StateLines(n - 1), StateLine(n - 1));
    }
  }

  predicate PlainTransition(t: Transition<string, string>) {
    NoNewline(t.role) && NoNewline(t.message)
  }

  /** A line break count of a left-nested concatenation of pieces without line breaks. */
  lemma PiecesCount(pieces: seq<string>)
    requires forall i :: 0 <= i < |pieces| ==> NoNewline(pieces[i])
    ensures CountNewlines(Text.Concat(pieces)) == 0
  {
    if pieces != [] {
      PiecesCount(pieces[1..]);
      NoNewlineCount(pieces[0]);
      CountNewlinesAppend(pieces[0], Text.Concat(pieces[1..]));
    }
  }

  lemma EdgeLineCount(e: (nat, nat, Transition<string, string>))
    requires PlainTransition(e.2)
    ensures CountNewlines(EdgeLine(e)) == 1
  {
    DigitsNoNewline(e.0);
    DigitsNoNewline(e.1);
    PiecesCount(EdgePieces(e));
    CountNewlinesAppend(Text.Concat(EdgePieces(e)), "\n");
  }

  lemma {:induction false} EdgeLinesCount(ts: seq<(nat, nat, Transition<string, string>)>)
    requires forall i :: 0 <= i < |ts| ==> PlainTransition(ts[i].2)
    ensures CountNewlines(EdgeLines(ts)) == |ts|
    decreases |ts|
  {
    if ts != [] {
      EdgeLinesCount(ts[..|ts| - 1]);
      EdgeLineCount(ts[|ts| - 1]);
      CountNewlinesAppend(EdgeLines(ts[..|ts| - 1]), EdgeLine(ts[|ts| - 1]));
    }
  }

  predicate PlainGraph(g: Graph<string, string>) {
    NoNewline(g.role)
    && (forall s :: 0 <= s < |g.states| && g.states[s].Choices? ==> NoNewline(g.states[s].role))
    && (forall i :: 0 <= i < |g.edges| ==> NoNewline(g.edges[i].message))
  }

  /**
   * The DOT text has one line per state and one per transition, plus one
   * line break before each of the two blocks that is not empty: a blank
   * line separates states from transitions only when there are transitions.
   */
  lemma PlainTransitions(g: Graph<string, string>)
    requires Valid(g) && PlainGraph(g)
    ensures forall i :: 0 <= i < |Transitions(g)| ==> PlainTransition(Transitions(g)[i].2)
  {
    var ts := Transitions(g);
    forall i | 0 <= i < |ts| ensures PlainTransition(ts[i].2) {
      assert NoNewline(g.states[g.edges[i].source].role);
    }
  }

  lemma HeaderCount(role: string, quoted: bool)
    requires NoNewline(role)
    ensures CountNewlines(DotHeader(role, quoted)) == 0
  {
    var q := if quoted then "\"" else "";
    NoNewlineCount(q);
    NoNewlineCount(role);
    NoNewlineCount(" {");
    NoNewlineCount("digraph ");
    CountNewlinesAppend(q, " {");
    CountNewlinesAppend(role, q + " {");
    CountNewlinesAppend(q, role + (q + " {"));
    CountNewlinesAppend("digraph ", q + (role + (q + " {")));
  }

  lemma DotLines(g: Graph<string, string>, quoted: bool)
    requires Valid(g) && PlainGraph(g)
    ensures CountNewlines(DotText(g, quoted)) ==
      |g.states| + |g.edges| + (if |g.states| > 0 then 1 else 0) + (if |g.edges| > 0 then 1 else 0)
  {
    var ts := Transitions(g);
    PlainTransitions(g);
    StateLinesCount(|g.states|);
    EdgeLinesCount(ts);
    HeaderCount(g.role, quoted);
    NoNewlineCount("}");
    var a, b := if |g.states| > 0 then "\n" else "", if |g.edges| > 0 then "\n" else "";
    CountNewlinesAppend(EdgeLines(ts), "}");
    CountNewlinesAppend(b, EdgeLines(ts) + "}");
    CountNewlinesAppend(StateLines(|g.states|), b + (EdgeLines(ts) + "}"));
    CountNewlinesAppend(a, StateLines(|g.states|) + (b + (EdgeLines(ts) + "}")));
    CountNewlinesAppend(DotHeader(g.role, quoted), a + (StateLines(|g.states|) + (b + (EdgeLines(ts) + "}"))));
  }

  /** An FSM with neither states nor transitions prints on one line. */
  lemma DotEmpty(role: string)
    ensures DotText(Graph(role, [], []), true) == "digraph \"" + role + "\" {}"
    ensures DotText(Graph(role, [], []), false) == "digraph " + role + " {}"
  {
  }

  function PetrifyLine(e: (nat, nat, Transition<string, string>)): string {
    "s" + Text.NatToString(e.0) + " " + e.2.role + " " + ActionText(e.2.action) + " " + e.2.message
      + " s" + Text.NatToString(e.1) + "\n"
  }

  function PetrifyLines(ts: seq<(nat, nat, Transition<string, string>)>): string {
    if ts == [] then "" else PetrifyLines(ts[..|ts| - 1]) + PetrifyLine(ts[|ts| - 1])
  }

  lemma PetrifyLinesSnoc(ts: seq<(nat, nat, Transition<string, string>)>, i: nat)
    requires i < |ts|
    ensures PetrifyLines(ts[..i + 1]) == PetrifyLines(ts[..i]) + PetrifyLine(ts[i])
  {
    assert ts[..i + 1][..i] == ts[..i];
  }

  const PetrifyHeader := ".outputs\n.state graph\n"
  const PetrifyFooter := ".marking s0\n.end"

  /** `Display for Petrify`. */
  function PetrifyText(g: Graph<string, string>): (r: string)
    requires Valid(g)
    ensures |r| >= |PetrifyHeader| + |PetrifyFooter| && r[..|PetrifyHeader|] == PetrifyHeader
    ensures r[|r| - |PetrifyFooter|..] == PetrifyFooter && r[|r| - 1] != '\n'
  {
    PetrifyHeader + PetrifyLines(Transitions(g)) + PetrifyFooter
  }

  /**
   * The Petrify printer. `Petrify::new` demands at least one state, since
   * the marking names `s0`.
   */
  method Petrify(fsm: Fsm<string, string>) returns (out: string)
    requires Valid(fsm.View()) && fsm.Size().0 > 0
    ensures out == PetrifyText(fsm.View())
  {
    var ts := Transitions(fsm.View());
    var lines := "";
    var j := 0;
    while j < |ts|
      invariant 0 <= j <= |ts| && lines == PetrifyLines(ts[..j])
    {
      PetrifyLinesSnoc(ts, j);
      lines := lines + PetrifyLine(ts[j]);
      j := j + 1;
    }
    assert ts[..|ts|] == ts;
    out := PetrifyHeader + lines + PetrifyFooter;
  }

  /** The labels the newer Petrify printer writes: a message's label, never its parameters. */
  function LabelNames(g: Graph<string, Expressions.Message>): (h: Graph<string, string>)
    ensures h.role == g.role && h.states == g.states && |h.edges| == |g.edges|
    ensures forall i :: 0 <= i < |g.edges| ==>
      h.edges[i] == Edge(g.edges[i].source, g.edges[i].target, g.edges[i].message.name)
  {
    Graph(g.role, g.states, seq(|g.edges|, i requires 0 <= i < |g.edges| =>
      Edge(g.edges[i].source, g.edges[i].target, g.edges[i].message.name)))
  }

  /** The newer Petrify printer (fsm/src/petrify.rs), over messages. */
  method PetrifyMessages(fsm: Fsm<string, Expressions.Message>) returns (out: string)
    requires Valid(fsm.View()) && fsm.Size().0 > 0
    ensures Valid(LabelNames(fsm.View())) && out == PetrifyText(LabelNames(fsm.View()))
  {
    var plain := new Fsm(fsm.role);
    plain.states := fsm.states;
    plain.edges := LabelNames(fsm.View()).edges;
    assert plain.View() == LabelNames(fsm.View());
    out := Petrify(plain);
  }

  /** Machines that differ only in message parameters or assignments print the same Petrify text. */
  lemma PetrifyIgnoresParameters(g: Graph<string, Expressions.Message>, h: Graph<string, Expressions.Message>)
    requires g.role == h.role && g.states == h.states && |g.edges| == |h.edges|
    requires forall i :: 0 <= i < |g.edges| ==> (g.edges[i].source == h.edges[i].source
      && g.edges[i].target == h.edges[i].target && g.edges[i].message.name == h.edges[i].message.name)
    ensures LabelNames(g) == LabelNames(h)
  {
  }
}
