/**
 * The generated code's session types (generate/src/template.rs): the type
 * a role's definitions are written in, and `TypeFormatter`, which prints
 * one as a Rust session type over the protocol's role and label tables.
 */
module Template {
  import opened Text
  import opened GenGraph

  /**
   * `Type`: the end, a reference to the definition of node `index`, one
   * message followed by the rest, or a choice at node `index`.
   */
  datatype Type =
    | End
    | Definition(index: nat)
    | Message(direction: Direction, role: nat, labelIndex: nat, next: Type)
    | Choice(direction: Direction, role: nat, index: nat)

  /** `Choice`: one arm of a choice definition, its label and the type it continues with. */
  datatype Arm = Arm(labelIndex: nat, ty: Type)

  /** `Definition`: a named type for node `index`, or the enum of a choice node's arms. */
  datatype Def =
    | TypeDef(safe: bool, index: nat, ty: Type)
    | ChoiceDef(index: nat, choices: seq<Arm>)

  /** Every role and label a type names is in range of tables of sizes `roles` and `labels`. */
  predicate InRange(ty: Type, roles: nat, labels: nat) {
    match ty
    case End => true
    case Definition(_) => true
    case Message(_, role, labelIndex, next) => role < roles && labelIndex < labels && InRange(next, roles, labels)
    case Choice(_, role, _) => role < roles
  }

  /** A definition's types, and its arms' labels, are in range. */
  predicate DefInRange(d: Def, roles: nat, labels: nat) {
    match d
    case TypeDef(_, _, ty) => InRange(ty, roles, labels)
    case ChoiceDef(_, choices) => forall k :: 0 <= k < |choices| ==> choices[k].labelIndex < labels && InRange(choices[k].ty, roles, labels)
  }

  /** The session type a message prints as: `Send` or `Receive`. */
  function MessageKeyword(d: Direction): string {
    if d == Send then "Send" else "Receive"
  }

  /** The session type a choice prints as: `Select` for sending, `Branch` for receiving. */
  function ChoiceKeyword(d: Direction): string {
    if d == Send then "Select" else "Branch"
  }

  /**
   * `Display for TypeFormatter`: `ty` printed for role `role` of protocol
   * `name`, with `roles` and `labels` the tables' camel-case names, which
   * the indices must be in range of.
   */
  function TypeText(ty: Type, name: string, role: string, roles: seq<string>, labels: seq<string>): string
    requires InRange(ty, |roles|, |labels|)
  {
    match ty
    case End => "End"
    case Definition(index) => name + role + NatToString(index) + "<'r>"
    case Message(direction, other, labelIndex, next) =>
      MessageKeyword(direction) + "<'r, " + role + ", " + roles[other] + ", " + labels[labelIndex] + ", "
        + TypeText(next, name, role, roles, labels) + ">"
    case Choice(direction, other, index) =>
      ChoiceKeyword(direction) + "<'r, " + role + ", " + roles[other] + ", " + name + role + NatToString(index) + "<'r>>"
  }

  /** `s` has no angle brackets. */
  predicate BracketFree(s: string) {
    forall i :: 0 <= i < |s| ==> s[i] != '<' && s[i] != '>'
  }

  /** How much a character opens (`<`) or closes (`>`) a generic argument list. */
  function Weight(c: char): int {
    if c == '<' then 1 else if c == '>' then -1 else 0
  }

  /** The number of `<` in `s` minus the number of `>`. */
  function Depth(s: string): int {
    if s == [] then 0 else Depth(s[..|s| - 1]) + Weight(s[|s| - 1])
  }

  lemma {:induction false} DepthCounts(s: string)
    ensures Depth(s) == multiset(s)['<'] as int - multiset(s)['>'] as int
  {
    if s != [] {
      DepthCounts(s[..|s| - 1]);
      assert s == s[..|s| - 1] + [s[|s| - 1]];
    }
  }

  lemma BracketFreeDepth(s: string)
    requires BracketFree(s)
    ensures Depth(s) == 0
  {
    DepthCounts(s);
    assert '<' !in s && '>' !in s;
  }

  lemma DepthAppend(a: string, b: string)
    ensures Depth(a + b) == Depth(a) + Depth(b)
  {
    DepthCounts(a);
    DepthCounts(b);
    DepthCounts(a + b);
    assert multiset(a + b) == multiset(a) + multiset(b);
  }

  /** The depths of the fixed pieces a printed type is made of. */
  lemma OpenDepth()
    ensures Depth("<'r, ") == 1
  {
    DepthCounts("<'r, ");
    assert multiset("<'r, ") == multiset{'<', '\'', 'r', ',', ' '};
  }

  lemma CommaDepth()
    ensures Depth(", ") == 0
  {
    DepthCounts(", ");
    assert multiset(", ") == multiset{',', ' '};
  }

  lemma CloseDepth()
    ensures Depth(">") == -1
  {
    DepthCounts(">");
    assert multiset(">") == multiset{'>'};
  }

  lemma LifetimeDepth()
    ensures Depth("<'r>") == 0
  {
    DepthCounts("<'r>");
    assert multiset("<'r>") == multiset{'<', '\'', 'r', '>'};
  }

  lemma LifetimeCloseDepth()
    ensures Depth("<'r>>") == -1
  {
    DepthCounts("<'r>>");
    assert multiset("<'r>>") == multiset{'<', '\'', 'r', '>', '>'};
  }

  lemma KeywordDepth(d: Direction)
    ensures Depth(MessageKeyword(d)) == 0 && Depth(ChoiceKeyword(d)) == 0 && Depth("End") == 0
  {
    assert BracketFree("Send") && BracketFree("Receive") && BracketFree("Select") && BracketFree("Branch") && BracketFree("End");
    BracketFreeDepth("Send");
    BracketFreeDepth("Receive");
    BracketFreeDepth("Select");
    BracketFreeDepth("Branch");
    BracketFreeDepth("End");
  }

  /** The text of a reference to a definition: balanced when its names are. */
  lemma ReferenceDepth(name: string, role: string, index: string)
    requires Depth(name) == 0 && Depth(role) == 0 && Depth(index) == 0
    ensures Depth(name + role + index + "<'r>") == 0
  {
    LifetimeDepth();
    DepthAppend(name, role);
    DepthAppend(name + role, index);
    DepthAppend(name + role + index, "<'r>");
  }

  /** The text of a message: balanced when its keyword, names and continuation are. */
  lemma MessageDepth(kw: string, role: string, other: string, message: string, rest: string)
    requires Depth(kw) == 0 && Depth(role) == 0 && Depth(other) == 0 && Depth(message) == 0 && Depth(rest) == 0
    ensures Depth(kw + "<'r, " + role + ", " + other + ", " + message + ", " + rest + ">") == 0
  {
    OpenDepth();
    CommaDepth();
    CloseDepth();
    var a := kw + "<'r, ";
    DepthAppend(kw, "<'r, ");
    var b := a + role + ", ";
    DepthAppend(a, role);
    DepthAppend(a + role, ", ");
    var c := b + other + ", ";
    DepthAppend(b, other);
    DepthAppend(b + other, ", ");
    var d := c + message + ", ";
    DepthAppend(c, message);
    DepthAppend(c + message, ", ");
    DepthAppend(d, rest);
    DepthAppend(d + rest, ">");
  }

  /** The text of a choice: balanced when its keyword and names are. */
  lemma ChoiceDepth(kw: string, role: string, other: string, name: string, index: string)
    requires Depth(kw) == 0 && Depth(role) == 0 && Depth(other) == 0 && Depth(name) == 0 && Depth(index) == 0
    ensures Depth(kw + "<'r, " + role + ", " + other + ", " + name + role + index + "<'r>>") == 0
  {
    OpenDepth();
    CommaDepth();
    LifetimeCloseDepth();
    var a := kw + "<'r, ";
    DepthAppend(kw, "<'r, ");
    var b := a + role + ", ";
    DepthAppend(a, role);
    DepthAppend(a + role, ", ");
    var c := b + other + ", ";
    DepthAppend(b, other);
    DepthAppend(b + other, ", ");
    var d := c + name + role;
    DepthAppend(c, name);
    DepthAppend(c + name, role);
    DepthAppend(d, index);
    DepthAppend(d + index, "<'r>>");
  }

  /**
   * When no name in the tables has an angle bracket, a printed type has as
   * many `<` as `>`: every generic argument list it opens is closed.
   */
  lemma {:induction false} TypeTextBalanced(ty: Type, name: string, role: string, roles: seq<string>, labels: seq<string>)
    requires InRange(ty, |roles|, |labels|)
    requires BracketFree(name) && BracketFree(role)
    requires forall i :: 0 <= i < |roles| ==> BracketFree(roles[i])
    requires forall i :: 0 <= i < |labels| ==> BracketFree(labels[i])
    ensures Depth(TypeText(ty, name, role, roles, labels)) == 0
  {
    BracketFreeDepth(name);
    BracketFreeDepth(role);
    match ty
    case End =>
      KeywordDepth(Send);
    case Definition(index) =>
      BracketFreeDepth(NatToString(index));
      ReferenceDepth(name, role, NatToString(index));
    case Message(direction, other, labelIndex, next) =>
      BracketFreeDepth(roles[other]);
      BracketFreeDepth(labels[labelIndex]);
      TypeTextBalanced(next, name, role, roles, labels);
      KeywordDepth(direction);
      MessageDepth(MessageKeyword(direction), role, roles[other], labels[labelIndex], TypeText(next, name, role, roles, labels));
    case Choice(direction, other, index) =>
      BracketFreeDepth(roles[other]);
      BracketFreeDepth(NatToString(index));
      KeywordDepth(direction);
      ChoiceDepth(ChoiceKeyword(direction), role, roles[other], name, NatToString(index));
  }

  /**
   * The printed type names its constructor first: `End`, the definition's
   * name, `Send`/`Receive` for a message and `Select`/`Branch` for a
   * choice, so the direction of a message or choice can be read back.
   */
  lemma TypeTextHead(ty: Type, name: string, role: string, roles: seq<string>, labels: seq<string>)
    requires InRange(ty, |roles|, |labels|)
    ensures var s := TypeText(ty, name, role, roles, labels);
      && (ty.End? ==> s == "End")
      && (ty.Definition? ==> s == name + role + NatToString(ty.index) + "<'r>")
      && (ty.Message? ==> |s| > 7 && (s[..4] == "Send" <==> ty.direction == Send) && (s[..7] == "Receive" <==> ty.direction == Receive))
      && (ty.Choice? ==> |s| > 6 && (s[..6] == "Select" <==> ty.direction == Send) && (s[..6] == "Branch" <==> ty.direction == Receive))
  {
    var s := TypeText(ty, name, role, roles, labels);
    match ty
    case End =>
    case Definition(_) =>
    case Message(direction, _, _, _) =>
      var kw := MessageKeyword(direction);
      assert s[..|kw|] == kw;
      if direction == Send {
        assert s[..7][0] != "Receive"[0];
      } else {
        assert s[..4][0] != "Send"[0];
      }
    case Choice(direction, _, _) =>
      var kw := ChoiceKeyword(direction);
      assert s[..6] == kw;
  }
}
