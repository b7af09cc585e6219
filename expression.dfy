/**
 * Refinement expressions, message parameters and messages, and the text
 * they print as. Brackets are printed only where precedence and
 * associativity need them.
 */
module Expressions {
  import opened Wrappers
  import Text

  datatype Associativity = Left | Right

  datatype UnaryOp = Not | Minus

  datatype BinaryOp =
    | LAnd | LOr | Equal | NotEqual | Less | Greater | LessEqual | GreaterEqual
    | Add | Subtract | Multiply | Divide | And | Xor | Or

  /** An operator as the printer and the parser see it: unary or binary. */
  datatype Operator = UnaryOperator(u: UnaryOp) | BinaryOperator(b: BinaryOp)

  /** Lower binds tighter. */
  function Precedence(op: Operator): (p: nat)
    ensures op.UnaryOperator? ==> p == 2
    ensures op.BinaryOperator? ==> 3 <= p <= 12
  {
    match op
    case UnaryOperator(_) => 2
    case BinaryOperator(b) =>
      match b
      case LAnd => 11
      case LOr => 12
      case Equal => 7
      case NotEqual => 7
      case Less => 6
      case Greater => 6
      case LessEqual => 6
      case GreaterEqual => 6
      case Add => 4
      case Subtract => 4
      case Multiply => 3
      case Divide => 3
      case And => 8
      case Xor => 9
      case Or => 10
  }

  /** Unary operators associate to the right, every binary operator to the left. */
  function AssociativityOf(op: Operator): (a: Associativity)
    ensures a == Right <==> op.UnaryOperator?
  {
    if op.UnaryOperator? then Right else Left
  }

  function UnaryText(op: UnaryOp): string {
    match op
    case Not => "!"
    case Minus => "-"
  }

  function BinaryText(op: BinaryOp): string {
    match op
    case LAnd => "&&"
    case LOr => "||"
    case Equal => "="
    case NotEqual => "<>"
    case Less => "<"
    case Greater => ">"
    case LessEqual => "<="
    case GreaterEqual => ">="
    case Add => "+"
    case Subtract => "-"
    case Multiply => "*"
    case Divide => "/"
    case And => "&"
    case Xor => "^"
    case Or => "|"
  }

  datatype Expression =
    | Name(name: string)
    | Boolean(boolean: bool)
    | Number(number: nat)
    | Unary(uop: UnaryOp, operand: Expression)
    | Binary(bop: BinaryOp, left: Expression, right: Expression)

  /** `usize::MAX`, the precedence of the top-level context. */
  const UsizeMax: nat := 0xFFFF_FFFF_FFFF_FFFF

  /** `fmt_bracketed`'s test: does an operator need brackets in this context? */
  predicate NeedsBrackets(op: Operator, context: Associativity, precedence: nat) {
    Precedence(op) > precedence || (Precedence(op) == precedence && AssociativityOf(op) == context)
  }

  /** The text of an expression without brackets around it. */
  function Inner(e: Expression): string
    decreases e, 0
  {
    match e
    case Name(n) => n
    case Boolean(b) => if b then "true" else "false"
    case Number(n) => Text.NatToString(n)
    case Unary(op, x) => UnaryText(op) + Print(x, Left, Precedence(UnaryOperator(op)))
    case Binary(op, l, r) =>
      Print(l, Right, Precedence(BinaryOperator(op))) + " " + BinaryText(op) + " "
        + Print(r, Left, Precedence(BinaryOperator(op)))
  }

  /**
   * `fmt_inner`: the text of `e` printed in a context of `precedence` and
   * `context`, which is its inner text, in brackets exactly when its
   * operator needs them there.
   */
  function Print(e: Expression, context: Associativity, precedence: nat): (r: string)
    ensures r == Inner(e) || r == "(" + Inner(e) + ")"
    ensures r != Inner(e) <==> OperatorOf(e).Some? && NeedsBrackets(OperatorOf(e).value, context, precedence)
    decreases e, 1
  {
    match e
    case Unary(op, _) =>
      if NeedsBrackets(UnaryOperator(op), context, precedence) then "(" + Inner(e) + ")" else Inner(e)
    case Binary(op, _, _) =>
      if NeedsBrackets(BinaryOperator(op), context, precedence) then "(" + Inner(e) + ")" else Inner(e)
    case _ => Inner(e)
  }

  /** `Display for Expression`: the top-level context never brackets. */
  function Show(e: Expression): (r: string)
    ensures r == Inner(e)
  {
    assert OperatorOf(e).Some? ==> Precedence(OperatorOf(e).value) <= 12;
    Print(e, Left, UsizeMax)
  }

  function OperatorOf(e: Expression): Option<Operator> {
    match e
    case Unary(op, _) => Some(UnaryOperator(op))
    case Binary(op, _, _) => Some(BinaryOperator(op))
    case _ => None
  }

  /**
   * A left operand of the same precedence prints bare, a right operand of
   * the same precedence gets brackets: printing follows left associativity.
   */
  lemma BinaryOperandBrackets(op: BinaryOp, l: Expression, r: Expression)
    ensures OperatorOf(l).Some? && Precedence(OperatorOf(l).value) <= Precedence(BinaryOperator(op)) ==>
      Print(l, Right, Precedence(BinaryOperator(op))) == Inner(l)
    ensures OperatorOf(r).Some? && Precedence(OperatorOf(r).value) == Precedence(BinaryOperator(op)) ==>
      Print(r, Left, Precedence(BinaryOperator(op))) == "(" + Inner(r) + ")"
    ensures OperatorOf(r).Some? && Precedence(OperatorOf(r).value) < Precedence(BinaryOperator(op)) ==>
      Print(r, Left, Precedence(BinaryOperator(op))) == Inner(r)
    ensures OperatorOf(l).Some? && Precedence(OperatorOf(l).value) > Precedence(BinaryOperator(op)) ==>
      Print(l, Right, Precedence(BinaryOperator(op))) == "(" + Inner(l) + ")"
  {
  }

  /** `(a + b) + c` prints without brackets. */
  lemma LeftNestedExample()
    ensures Show(Binary(Add, Binary(Add, Name("a"), Name("b")), Name("c"))) == "a + b + c"
  {
    var ab := Binary(Add, Name("a"), Name("b"));
    assert Print(Name("a"), Right, 4) == "a" && Print(Name("b"), Left, 4) == "b";
    assert Inner(ab) == "a + b";
    assert Print(ab, Right, 4) == "a + b";
    assert Inner(Binary(Add, ab, Name("c"))) == "a + b" + " + " + "c";
  }

  /** `a + (b + c)` keeps its brackets. */
  lemma RightNestedExample()
    ensures Show(Binary(Add, Name("a"), Binary(Add, Name("b"), Name("c")))) == "a + (b + c)"
  {
    var bc := Binary(Add, Name("b"), Name("c"));
    assert Print(Name("b"), Right, 4) == "b" && Print(Name("c"), Left, 4) == "c";
    assert Inner(bc) == "b + c";
    assert Print(bc, Left, 4) == "(b + c)";
    assert Inner(Binary(Add, Name("a"), bc)) == "a" + " + " + "(b + c)";
  }

  /** A looser operand is bracketed whichever side it is on. */
  lemma LooserOperandExample()
    ensures Show(Binary(Multiply, Binary(Add, Name("a"), Name("b")), Name("c"))) == "(a + b) * c"
  {
    var ab := Binary(Add, Name("a"), Name("b"));
    assert Print(Name("a"), Right, 4) == "a" && Print(Name("b"), Left, 4) == "b";
    assert Inner(ab) == "a + b";
    assert Print(ab, Right, 3) == "(a + b)";
    assert Inner(Binary(Multiply, ab, Name("c"))) == "(a + b)" + " * " + "c";
  }

  datatype NamedParameter = NamedParameter(name: string, sort: string, refinement: Option<Expression>)

  /** `name: sort`, followed by `{refinement}` when there is one. */
  function NamedParameterText(p: NamedParameter): string {
    p.name + ": " + p.sort + (if p.refinement.Some? then "{" + Show(p.refinement.value) + "}" else "")
  }

  datatype Parameters = Unnamed(names: seq<string>) | Named(named: seq<NamedParameter>)

  /** `Parameters::default`. */
  const NoParameters: Parameters := Unnamed([])

  /** `is_empty`: either kind of list with no entries. */
  function IsEmpty(p: Parameters): (b: bool)
    ensures b <==> (p.Unnamed? && p.names == []) || (p.Named? && p.named == [])
  {
    match p
    case Unnamed(ns) => |ns| == 0
    case Named(ps) => |ps| == 0
  }

  function NamedTexts(ps: seq<NamedParameter>): (r: seq<string>)
    ensures |r| == |ps| && forall i :: 0 <= i < |ps| ==> r[i] == NamedParameterText(ps[i])
  {
    if ps == [] then [] else [NamedParameterText(ps[0])] + NamedTexts(ps[1..])
  }

  /** `Display for Parameters`: the entries separated by `, `. */
  function ParametersText(p: Parameters): string {
    match p
    case Unnamed(ns) => Text.Join(ns, ", ")
    case Named(ps) => Text.Join(NamedTexts(ps), ", ")
  }

  /** An empty list prints as nothing. */
  lemma EmptyParametersText(p: Parameters)
    requires IsEmpty(p)
    ensures ParametersText(p) == ""
  {
  }

  datatype Message = Message(name: string, parameters: Parameters, assignments: seq<(string, Expression)>)

  /** `Message::from_label`: no parameters and no assignments. */
  function FromLabel(name: string): (m: Message)
    ensures m.name == name && IsEmpty(m.parameters) && m.assignments == []
  {
    Message(name, NoParameters, [])
  }

  function AssignmentTexts(a: seq<(string, Expression)>): (r: seq<string>)
    ensures |r| == |a| && forall i :: 0 <= i < |a| ==> r[i] == a[i].0 + ": " + Show(a[i].1)
  {
    if a == [] then [] else [a[0].0 + ": " + Show(a[0].1)] + AssignmentTexts(a[1..])
  }

  /** `Display for Message`: the label, `(parameters)` unless there are none, `[n: e, ...]` unless there are none. */
  function MessageText(m: Message): string {
    m.name
      + (if IsEmpty(m.parameters) then "" else "(" + ParametersText(m.parameters) + ")")
      + (if m.assignments == [] then "" else "[" + Text.Join(AssignmentTexts(m.assignments), ", ") + "]")
  }

  /** A message built from a label prints as just the label. */
  lemma FromLabelText(name: string)
    ensures MessageText(FromLabel(name)) == name
  {
  }

  lemma MessageTextExample()
    ensures MessageText(Message("m", Unnamed(["x", "y"]), [("x", Boolean(true))])) == "m(x, y)[x: true]"
  {
    assert Text.Join(["x", "y"], ", ") == "x" + ", " + "y";
    assert Show(Boolean(true)) == "true";
    var texts := AssignmentTexts([("x", Boolean(true))]);
    assert texts[0] == "x: true";
    assert Text.Join(texts, ", ") == "x: true";
  }
}
