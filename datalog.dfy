/**
 * The dynamic verifier's analysis: which participant knows which variable
 * in which state, computed as the least fixpoint of its deduction rules,
 * and the facts it extracts from a labelled protocol graph.
 */
module VariableLocation {
  /** `Send(s1, p1, var, p2, s2)`: going from `s1` to `s2`, `p1` sends `var` to `p2`. */
  datatype Send = Send(from: int, sender: char, variable: char, receiver: char, to: int)

  /** `FreeVariableRefinement(s1, var, s2)`: the step from `s1` to `s2` checks a refinement on `var`. */
  datatype Refinement = Refinement(from: int, variable: char, to: int)

  /** `In(s, p, var)`: in state `s`, participant `p` holds `var`. */
  datatype In = In(state: int, participant: char, variable: char)

  /** The immediate deductions: both ends of a send hold the sent variable. */
  function Immediate(sends: set<Send>): set<In> {
    (set e | e in sends :: In(e.from, e.sender, e.variable))
    + (set e | e in sends :: In(e.to, e.receiver, e.variable))
  }

  /** The backward deductions, from `s2` to `s1`. */
  function Backward(sends: set<Send>, facts: set<In>): set<In> {
    (set f, e | f in facts && e in sends && f.state == e.to && f.participant == e.sender
       :: In(e.from, e.sender, f.variable))
    + (set f, e | f in facts && e in sends && f.state == e.to && f.participant == e.receiver && f.variable != e.variable
       :: In(e.from, e.receiver, f.variable))
  }

  /** The forward deductions, from `s1` to `s2`. */
  function Forward(sends: set<Send>, facts: set<In>): set<In> {
    (set f, e | f in facts && e in sends && f.state == e.from && f.participant == e.receiver
       :: In(e.to, e.receiver, f.variable))
    + (set f, e | f in facts && e in sends && f.state == e.from && f.participant == e.sender && f.variable != e.variable
       :: In(e.to, e.sender, f.variable))
  }

  /** One round of every rule. */
  function Step(sends: set<Send>, facts: set<In>): set<In> {
    facts + Immediate(sends) + Backward(sends, facts) + Forward(sends, facts)
  }

  /** A round of the rules only adds facts, and always adds the immediate ones. */
  lemma StepGrows(sends: set<Send>, facts: set<In>)
    ensures facts <= Step(sends, facts) && Immediate(sends) <= Step(sends, facts)
  {
  }

  /** A set of facts that no rule can extend. */
  predicate Closed(sends: set<Send>, facts: set<In>) {
    Step(sends, facts) == facts
  }

  /** A fact closed under the rules is also reached by one more round from any of its subsets. */
  lemma StepMonotone(sends: set<Send>, facts: set<In>, closed: set<In>)
    requires facts <= closed && Closed(sends, closed)
    ensures Step(sends, facts) <= closed
  {
    assert Backward(sends, facts) <= Backward(sends, closed);
    assert Forward(sends, facts) <= Forward(sends, closed);
  }

  /** Every fact the rules can name: states, participants and variables that occur in a send. */
  function Universe(sends: set<Send>): set<In> {
    var states := (set e | e in sends :: e.from) + (set e | e in sends :: e.to);
    var participants := (set e | e in sends :: e.sender) + (set e | e in sends :: e.receiver);
    var variables := set e | e in sends :: e.variable;
    set s, p, v | s in states && p in participants && v in variables :: In(s, p, v)
  }

  lemma FactInUniverse(sends: set<Send>, e: Send, state: int, participant: char, variable: char)
    requires e in sends && (state == e.from || state == e.to) && (participant == e.sender || participant == e.receiver)
    requires exists g :: g in Universe(sends) && g.variable == variable
    ensures In(state, participant, variable) in Universe(sends)
  {
    var g :| g in Universe(sends) && g.variable == variable;
    var s, p, w :| s in sends && p in sends && w in sends && g.variable == w.variable;
  }

  lemma BackwardInUniverse(sends: set<Send>, facts: set<In>)
    requires facts <= Universe(sends)
    ensures Backward(sends, facts) <= Universe(sends)
  {
    forall f | f in Backward(sends, facts) ensures f in Universe(sends) {
      var g, e :| g in facts && e in sends && f.variable == g.variable && f.state == e.from
        && (f.participant == e.sender || f.participant == e.receiver);
      FactInUniverse(sends, e, f.state, f.participant, f.variable);
    }
  }

  lemma ForwardInUniverse(sends: set<Send>, facts: set<In>)
    requires facts <= Universe(sends)
    ensures Forward(sends, facts) <= Universe(sends)
  {
    forall f | f in Forward(sends, facts) ensures f in Universe(sends) {
      var g, e :| g in facts && e in sends && f.variable == g.variable && f.state == e.to
        && (f.participant == e.sender || f.participant == e.receiver);
      FactInUniverse(sends, e, f.state, f.participant, f.variable);
    }
  }

  lemma ImmediateInUniverse(sends: set<Send>)
    ensures Immediate(sends) <= Universe(sends)
  {
    forall f | f in Immediate(sends) ensures f in Universe(sends) {
      var e :| e in sends && f.variable == e.variable
        && ((f.state == e.from && f.participant == e.sender) || (f.state == e.to && f.participant == e.receiver));
      FactInUniverse(sends, e, f.state, f.participant, f.variable);
    }
  }

  lemma StepInUniverse(sends: set<Send>, facts: set<In>)
    requires facts <= Universe(sends)
    ensures Step(sends, facts) <= Universe(sends)
  {
    ImmediateInUniverse(sends);
    BackwardInUniverse(sends, facts);
    ForwardInUniverse(sends, facts);
  }

  lemma StrictGrowth(universe: set<In>, smaller: set<In>, larger: set<In>)
    requires smaller < larger <= universe
    ensures |universe - larger| < |universe - smaller|
  {
    var x :| x in larger && x !in smaller;
    assert universe - smaller == (universe - larger) + (larger - smaller);
    assert (universe - larger) * (larger - smaller) == {};
    assert x in larger - smaller;
  }

  /** Contained in every closed set of facts. */
  ghost predicate BelowClosed(sends: set<Send>, facts: set<In>) {
    forall closed :: Closed(sends, closed) ==> facts <= closed
  }

  lemma BelowClosedStep(sends: set<Send>, facts: set<In>)
    requires BelowClosed(sends, facts)
    ensures BelowClosed(sends, Step(sends, facts))
  {
    forall closed | Closed(sends, closed) ensures Step(sends, facts) <= closed {
      StepMonotone(sends, facts, closed);
    }
  }

  /** One more round from a set that is not yet closed: still inside the universe and below every closed set, and strictly larger. */
  lemma Advance(sends: set<Send>, facts: set<In>)
    requires facts <= Universe(sends) && BelowClosed(sends, facts) && Step(sends, facts) != facts
    ensures Step(sends, facts) <= Universe(sends) && BelowClosed(sends, Step(sends, facts))
    ensures |Universe(sends) - Step(sends, facts)| < |Universe(sends) - facts|
  {
    StepGrows(sends, facts);
    StepInUniverse(sends, facts);
    StrictGrowth(Universe(sends), facts, Step(sends, facts));
    BelowClosedStep(sends, facts);
  }

  /**
   * The `In` relation: the least set of facts closed under the deduction
   * rules. It holds the immediate deductions and is contained in every
   * closed set of facts.
   */
  method Facts(sends: set<Send>) returns (facts: set<In>)
    ensures Closed(sends, facts)
    ensures Immediate(sends) <= facts
    ensures BelowClosed(sends, facts)
    ensures facts <= Universe(sends)
  {
    facts := {};
    var next := Step(sends, facts);
    while next != facts
      invariant next == Step(sends, facts) && facts <= Universe(sends) && BelowClosed(sends, facts)
      decreases |Universe(sends) - facts|
    {
      Advance(sends, facts);
      facts := next;
      next := Step(sends, facts);
    }
    StepGrows(sends, facts);
  }

  /** `NotVerifiableFV(s1, s2, var1, var2, p1, p2)`: two refined variables of one step known by different participants. */
  datatype FreeVariableConflict = FreeVariableConflict(from: int, to: int, first: char, second: char, p1: char, p2: char)

  function NotVerifiableFV(refinements: set<Refinement>, facts: set<In>): (r: set<FreeVariableConflict>)
    ensures forall c: FreeVariableConflict :: c in r <==> (c.p1 != c.p2
      && Refinement(c.from, c.first, c.to) in refinements && Refinement(c.from, c.second, c.to) in refinements
      && In(c.from, c.p1, c.first) in facts && In(c.from, c.p2, c.second) in facts)
  {
    var conflicts := set r1, r2, f1, f2 | r1 in refinements && r2 in refinements && f1 in facts && f2 in facts
      && r1.from == r2.from && r1.to == r2.to && f1.state == r1.from && f2.state == r1.from
      && f1.variable == r1.variable && f2.variable == r2.variable && f1.participant != f2.participant
      :: FreeVariableConflict(r1.from, r1.to, r1.variable, r2.variable, f1.participant, f2.participant);
    forall c: FreeVariableConflict | c.p1 != c.p2
      && Refinement(c.from, c.first, c.to) in refinements && Refinement(c.from, c.second, c.to) in refinements
      && In(c.from, c.p1, c.first) in facts && In(c.from, c.p2, c.second) in facts
      ensures c in conflicts
    {
      var r1, r2 := Refinement(c.from, c.first, c.to), Refinement(c.from, c.second, c.to);
      var f1, f2 := In(c.from, c.p1, c.first), In(c.from, c.p2, c.second);
      assert c == FreeVariableConflict(r1.from, r1.to, r1.variable, r2.variable, f1.participant, f2.participant);
    }
    conflicts
  }

  /** `NotVerifiableDup(s, var, p1, p2)`: one variable held by two different participants in one state. */
  datatype Duplicate = Duplicate(state: int, variable: char, p1: char, p2: char)

  function NotVerifiableDup(facts: set<In>): (r: set<Duplicate>)
    ensures forall d: Duplicate :: d in r <==>
      d.p1 != d.p2 && In(d.state, d.p1, d.variable) in facts && In(d.state, d.p2, d.variable) in facts
  {
    var pairs := set f1, f2 | f1 in facts && f2 in facts && f1.state == f2.state && f1.variable == f2.variable
      && f1.participant != f2.participant :: Duplicate(f1.state, f1.variable, f1.participant, f2.participant);
    assert forall d: Duplicate :: (d.p1 != d.p2 && In(d.state, d.p1, d.variable) in facts && In(d.state, d.p2, d.variable) in facts
      ==> d in pairs) by {
      forall d: Duplicate | d.p1 != d.p2 && In(d.state, d.p1, d.variable) in facts && In(d.state, d.p2, d.variable) in facts
        ensures d in pairs
      {
        var f1, f2 := In(d.state, d.p1, d.variable), In(d.state, d.p2, d.variable);
        assert d == Duplicate(f1.state, f1.variable, f1.participant, f2.participant);
      }
    }
    pairs
  }

  /** A duplicate is flagged both ways round. */
  lemma DuplicateSymmetric(facts: set<In>, d: Duplicate)
    requires d in NotVerifiableDup(facts)
    ensures Duplicate(d.state, d.variable, d.p2, d.p1) in NotVerifiableDup(facts)
  {
  }

  /** No rule carries the two facts of a single send any further. */
  lemma SingleSendRules()
    ensures Backward({Send(0, 'A', 'x', 'B', 1)}, {In(0, 'A', 'x'), In(1, 'B', 'x')}) == {}
    ensures Forward({Send(0, 'A', 'x', 'B', 1)}, {In(0, 'A', 'x'), In(1, 'B', 'x')}) == {}
  {
  }

  /** A single send: each end holds the variable and nothing else is deduced. */
  lemma SingleSend()
    ensures var sends := {Send(0, 'A', 'x', 'B', 1)};
      var facts := {In(0, 'A', 'x'), In(1, 'B', 'x')};
      Closed(sends, facts) && BelowClosed(sends, facts) && NotVerifiableDup(facts) == {}
  {
    var sends := {Send(0, 'A', 'x', 'B', 1)};
    var facts := {In(0, 'A', 'x'), In(1, 'B', 'x')};
    assert Immediate(sends) == facts;
    SingleSendRules();
    forall closed | Closed(sends, closed) ensures facts <= closed {
      StepGrows(sends, closed);
    }
  }

  /** A message label of the dynamic verifier: sender, receiver, parameters and refined variables. */
  datatype Label = Label(sender: char, receiver: char, parameters: seq<char>, refinements: seq<char>)

  /** An edge of the protocol graph with its already parsed state numbers and its attribute list. */
  datatype Edge = Edge(from: int, to: int, attributes: seq<Label>)

  /** The facts one edge contributes, from its first attribute. */
  function EdgeSends(e: Edge): (r: seq<Send>)
    ensures e.attributes == [] ==> r == []
    ensures e.attributes != [] ==> (|r| == |e.attributes[0].parameters|
      && forall i :: 0 <= i < |r| ==> r[i] == Send(e.from, e.attributes[0].sender, e.attributes[0].parameters[i], e.attributes[0].receiver, e.to))
  {
    if e.attributes == [] then []
    else
      var l := e.attributes[0];
      seq(|l.parameters|, i requires 0 <= i < |l.parameters| => Send(e.from, l.sender, l.parameters[i], l.receiver, e.to))
  }

  function EdgeRefinements(e: Edge): (r: seq<Refinement>)
    ensures e.attributes == [] ==> r == []
    ensures e.attributes != [] ==> (|r| == |e.attributes[0].refinements|
      && forall i :: 0 <= i < |r| ==> r[i] == Refinement(e.from, e.attributes[0].refinements[i], e.to))
  {
    if e.attributes == [] then []
    else
      var l := e.attributes[0];
      seq(|l.refinements|, i requires 0 <= i < |l.refinements| => Refinement(e.from, l.refinements[i], e.to))
  }

  function AllSends(edges: seq<Edge>): seq<Send> {
    if edges == [] then [] else AllSends(edges[..|edges| - 1]) + EdgeSends(edges[|edges| - 1])
  }

  function AllRefinements(edges: seq<Edge>): seq<Refinement> {
    if edges == [] then [] else AllRefinements(edges[..|edges| - 1]) + EdgeRefinements(edges[|edges| - 1])
  }

  /** A send is extracted exactly when some labelled edge carries that parameter. */
  lemma {:induction false} AllSendsMembers(edges: seq<Edge>, s: Send)
    ensures s in AllSends(edges) <==> exists i, j :: (0 <= i < |edges| && edges[i].attributes != []
      && 0 <= j < |edges[i].attributes[0].parameters|
      && s == Send(edges[i].from, edges[i].attributes[0].sender, edges[i].attributes[0].parameters[j], edges[i].attributes[0].receiver, edges[i].to))
  {
    if edges != [] {
      var init, last := edges[..|edges| - 1], edges[|edges| - 1];
      AllSendsMembers(init, s);
      if s in EdgeSends(last) {
        var j :| 0 <= j < |EdgeSends(last)| && EdgeSends(last)[j] == s;
        assert edges[|edges| - 1] == last;
      }
      if s !in AllSends(init) && s !in EdgeSends(last) {
        forall i, j | 0 <= i < |edges| && edges[i].attributes != [] && 0 <= j < |edges[i].attributes[0].parameters|
          ensures s != Send(edges[i].from, edges[i].attributes[0].sender, edges[i].attributes[0].parameters[j], edges[i].attributes[0].receiver, edges[i].to)
        {
          if i < |edges| - 1 {
            assert edges[i] == init[i];
          } else {
            assert EdgeSends(last)[j] == Send(edges[i].from, edges[i].attributes[0].sender, edges[i].attributes[0].parameters[j], edges[i].attributes[0].receiver, edges[i].to);
          }
        }
      }
    }
  }

  /** The inner loop over the parameters of an edge's first attribute. */
  method PushSends(list: seq<Send>, edge: Edge) returns (out: seq<Send>)
    requires edge.attributes != []
    ensures out == list + EdgeSends(edge)
  {
    var first := edge.attributes[0];
    out := list;
    var k := 0;
    while k < |first.parameters|
      invariant k <= |first.parameters| && out == list + EdgeSends(edge)[..k]
    {
      assert EdgeSends(edge)[..k + 1] == EdgeSends(edge)[..k] + [EdgeSends(edge)[k]];
      out := out + [Send(edge.from, first.sender, first.parameters[k], first.receiver, edge.to)];
      k := k + 1;
    }
  }

  /** The inner loop over the refined variables of an edge's first attribute. */
  method PushRefinements(fv: seq<Refinement>, edge: Edge) returns (out: seq<Refinement>)
    requires edge.attributes != []
    ensures out == fv + EdgeRefinements(edge)
  {
    var first := edge.attributes[0];
    out := fv;
    var k := 0;
    while k < |first.refinements|
      invariant k <= |first.refinements| && out == fv + EdgeRefinements(edge)[..k]
    {
      assert EdgeRefinements(edge)[..k + 1] == EdgeRefinements(edge)[..k] + [EdgeRefinements(edge)[k]];
      out := out + [Refinement(edge.from, first.refinements[k], edge.to)];
      k := k + 1;
    }
  }

  /** `generate`: one `Send` per parameter and one refinement fact per refined variable of every labelled edge. */
  method Generate(edges: seq<Edge>) returns (list: seq<Send>, fv: seq<Refinement>)
    ensures list == AllSends(edges) && fv == AllRefinements(edges)
  {
    list, fv := [], [];
    var n := 0;
    while n < |edges|
      invariant n <= |edges| && list == AllSends(edges[..n]) && fv == AllRefinements(edges[..n])
    {
      var edge := edges[n];
      assert edges[..n + 1][..n] == edges[..n] && edges[..n + 1][n] == edge;
      if |edge.attributes| > 0 {
        list := PushSends(list, edge);
        fv := PushRefinements(fv, edge);
      }
      n := n + 1;
    }
    assert edges[..n] == edges;
  }
}
