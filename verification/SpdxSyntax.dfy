/** Tokens and abstract syntax of SPDX license expressions. */
module SpdxSyntax {

  datatype TokenType =
    | LicenseId | OrLater | AndOp | OrOp | WithOp | LParen | RParen | DocumentRef | LicenseRef

  datatype Token = Token(kind: TokenType, value: string, offset: nat)

  datatype Node =
    | Simple(identifier: string, orLater: bool)
    | With(license: Node, exception: string)
    | And(left: Node, right: Node)
    | Or(left: Node, right: Node)

  // ----- what an expression means -----

  /** The licenses an expression mentions, left to right; "L WITH e" counts as one license. */
  function Leaves(n: Node): seq<Node> {
    match n
    case Simple(_, _) => [n]
    case With(_, _) => [n]
    case And(l, r) => Leaves(l) + Leaves(r)
    case Or(l, r) => Leaves(l) + Leaves(r)
  }

  /** Truth of an expression, given which licenses are acceptable. */
  function Eval(n: Node, accepted: Node -> bool): bool {
    match n
    case Simple(_, _) => accepted(n)
    case With(_, _) => accepted(n)
    case And(l, r) => Eval(l, accepted) && Eval(r, accepted)
    case Or(l, r) => Eval(l, accepted) || Eval(r, accepted)
  }

  /** WITH is applied to plain licenses only. */
  predicate WithPlain(n: Node) {
    match n
    case Simple(_, _) => true
    case With(l, _) => l.Simple?
    case And(l, r) => WithPlain(l) && WithPlain(r)
    case Or(l, r) => WithPlain(l) && WithPlain(r)
  }

  /** No OR is the right child of an OR and no AND the right child of an AND. */
  predicate LeftNested(n: Node) {
    match n
    case Simple(_, _) => true
    case With(l, _) => LeftNested(l)
    case And(l, r) => LeftNested(l) && LeftNested(r) && !r.And?
    case Or(l, r) => LeftNested(l) && LeftNested(r) && !r.Or?
  }
}
