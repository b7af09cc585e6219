/**
 * Session types as the type-to-FSM serialisers see them. Rust names a
 * session type at the type level; here every type is a `TypeId` (a `nat`)
 * and an environment maps each session type's id to its constructor, whose
 * peer role, label types and continuations are ids again.
 */
module SessionTypes {
  import M = Machine

  /** `Type`: a type's id with its `type_name`. */
  datatype Type = Type(id: nat, name: string)

  /** `Type::new::<T>()`: the id of `T` with its name, which the id determines. */
  function TypeOf(names: nat -> string, id: nat): Type {
    Type(id, names(id))
  }

  /** `PartialEq for Type`: two types are equal when their ids are. */
  predicate SameType(a: Type, b: Type) {
    a.id == b.id
  }

  /**
   * Types built by `Type::new` are equal exactly when their ids are, and
   * then `SameType` and structural equality agree, so the FSM may compare
   * roles structurally.
   */
  lemma SameTypeById(names: nat -> string, a: nat, b: nat)
    ensures SameType(TypeOf(names, a), TypeOf(names, b)) <==> a == b
    ensures SameType(TypeOf(names, a), TypeOf(names, b)) <==> TypeOf(names, a) == TypeOf(names, b)
  {
  }

  /** One arm of a choice: its label type and the session type it continues with. */
  datatype Choice = Choice(message: nat, next: nat)

  /** The session constructors, with the peer role's id where they have one. */
  datatype Session =
    | End
    | Send(peer: nat, message: nat, next: nat)
    | Receive(peer: nat, message: nat, next: nat)
    | Select(peer: nat, choices: seq<Choice>)
    | Branch(peer: nat, choices: seq<Choice>)

  /** The arms the serialisers expand: one for `Send`/`Receive`, the enum's variants for `Select`/`Branch`. */
  function ChoicesOf(s: Session): seq<Choice> {
    match s
    case End => []
    case Send(_, message, next) => [Choice(message, next)]
    case Receive(_, message, next) => [Choice(message, next)]
    case Select(_, choices) => choices
    case Branch(_, choices) => choices
  }

  /** `Send` and `Select` serialise as `Output`, `Receive` and `Branch` as `Input`. */
  function ActionOf(s: Session): (a: M.Action)
    requires !s.End?
    ensures a == M.Output <==> s.Send? || s.Select?
    ensures a == M.Input <==> s.Receive? || s.Branch?
  {
    if s.Send? || s.Select? then M.Output else M.Input
  }

  /** Every continuation an environment mentions is defined in it. */
  ghost predicate Closed(defs: map<nat, Session>) {
    forall id, c :: id in defs && c in ChoicesOf(defs[id]) ==> c.next in defs
  }

  /** No session type talks to `role`, the role whose FSM is being built. */
  ghost predicate NoSelf(defs: map<nat, Session>, role: nat) {
    forall id :: id in defs && !defs[id].End? ==> defs[id].peer != role
  }

  /** The history map never gives two type ids the same state. */
  ghost predicate Injective(h: map<nat, nat>) {
    forall a, b :: a in h && b in h && h[a] == h[b] ==> a == b
  }

  /** `history` only gains keys and keeps the states it had. */
  ghost predicate Grows(before: map<nat, nat>, after: map<nat, nat>) {
    forall id :: id in before ==> id in after && after[id] == before[id]
  }
}
