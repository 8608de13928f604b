/**
 * The documented grammar, independently of the parser:
 *
 *   expr      -> and_expr ("OR" and_expr)*
 *   and_expr  -> with_expr ("AND" with_expr)*
 *   with_expr -> atom ("WITH" exception_id)?
 *   atom      -> "(" expr ")" | license
 */
module SpdxGrammar {
  import opened SpdxSyntax
  import opened SpdxParser

  /** Concrete syntax: a derivation together with the tokens it covers. */
  datatype Tree =
    | Leaf(tok: Token)
    | Group(open: Token, body: Tree, close: Token)
    | WithTree(atom: Tree, op: Token, exc: Token)
    | Chain(left: Tree, op: Token, right: Tree)

  /** Position of a tree in the chain atom, with_expr, and_expr, expr. */
  function Level(c: Tree): nat {
    match c
    case Leaf(_) => 0
    case Group(_, _, _) => 0
    case WithTree(_, _, _) => 1
    case Chain(_, op, _) => if op.kind.AndOp? then 2 else 3
  }

  /** The tree is a derivation of the grammar; repetition is left nesting. */
  predicate Derivation(c: Tree) {
    match c
    case Leaf(t) => IsLicense(t.kind)
    case Group(open, body, close) => open.kind.LParen? && close.kind.RParen? && Derivation(body)
    case WithTree(atom, op, exc) =>
      Level(atom) == 0 && Derivation(atom) && op.kind.WithOp? && (exc.kind.LicenseId? || exc.kind.LicenseRef?)
    case Chain(l, op, r) =>
      && (op.kind.AndOp? || op.kind.OrOp?)
      && Level(l) <= Level(c) && Level(r) < Level(c) && Derivation(l) && Derivation(r)
  }

  function Yield(c: Tree): (ts: seq<Token>)
    ensures |ts| > 0
  {
    match c
    case Leaf(t) => [t]
    case Group(open, body, close) => [open] + Yield(body) + [close]
    case WithTree(atom, op, exc) => Yield(atom) + [op] + [exc]
    case Chain(l, op, r) => Yield(l) + [op] + Yield(r)
  }

  function Ast(c: Tree): Node {
    match c
    case Leaf(t) => Simple(t.value, t.kind.OrLater?)
    case Group(_, body, _) => Ast(body)
    case WithTree(atom, _, exc) => With(Ast(atom), exc.value)
    case Chain(l, op, r) => if op.kind.AndOp? then And(Ast(l), Ast(r)) else Or(Ast(l), Ast(r))
  }

  // ----- open parentheses -----

  function Delta(t: Token): int {
    if t.kind.LParen? then 1 else if t.kind.RParen? then -1 else 0
  }

  function Max(a: int, b: int): int {
    if a < b then b else a
  }

  /** Parentheses left open by a token sequence. */
  function Unclosed(ts: seq<Token>): int {
    if ts == [] then 0 else Delta(ts[0]) + Unclosed(ts[1..])
  }

  /** The most parentheses that are open at once while reading a token sequence. */
  function MaxOpen(ts: seq<Token>): (m: nat) {
    if ts == [] then 0 else Max(0, Delta(ts[0]) + MaxOpen(ts[1..]))
  }

  lemma {:induction false} OpenConcat(a: seq<Token>, b: seq<Token>)
    ensures Unclosed(a + b) == Unclosed(a) + Unclosed(b)
    ensures MaxOpen(a + b) == Max(MaxOpen(a), Unclosed(a) + MaxOpen(b))
  {
    if a == [] {
      assert a + b == b;
    } else {
      assert (a + b)[1..] == a[1..] + b;
      OpenConcat(a[1..], b);
    }
  }

  function Nesting(c: Tree): nat {
    match c
    case Leaf(_) => 0
    case Group(_, body, _) => 1 + Nesting(body)
    case WithTree(atom, _, _) => Nesting(atom)
    case Chain(l, _, r) => Max(Nesting(l), Nesting(r))
  }

  /** Only groups open and close parentheses. */
  predicate ParensInGroups(c: Tree) {
    match c
    case Leaf(t) => Delta(t) == 0
    case Group(open, body, close) => Delta(open) == 1 && Delta(close) == -1 && ParensInGroups(body)
    case WithTree(atom, op, exc) => ParensInGroups(atom) && Delta(op) == 0 && Delta(exc) == 0
    case Chain(l, op, r) => ParensInGroups(l) && Delta(op) == 0 && ParensInGroups(r)
  }

  lemma DerivationParens(c: Tree)
    requires Derivation(c)
    ensures ParensInGroups(c)
  {
  }

  lemma SingleOpen(t: Token)
    ensures Unclosed([t]) == Delta(t) && MaxOpen([t]) == Max(0, Delta(t))
  {
    var ts := [t];
    assert ts[0] == t && ts[1..] == [];
    assert MaxOpen(ts[1..]) == 0 && Unclosed(ts[1..]) == 0;
  }

  lemma ChainOpen(a: seq<Token>, op: Token, b: seq<Token>)
    requires Unclosed(a) == 0 && Delta(op) == 0 && Unclosed(b) == 0
    ensures Unclosed(a + [op] + b) == 0 && MaxOpen(a + [op] + b) == Max(MaxOpen(a), MaxOpen(b))
  {
    SingleOpen(op);
    hide Unclosed, MaxOpen;
    OpenConcat(a + [op], b);
    OpenConcat(a, [op]);
  }

  lemma {:induction false} NestingIsMaxOpen(c: Tree)
    requires ParensInGroups(c)
    ensures Unclosed(Yield(c)) == 0 && MaxOpen(Yield(c)) == Nesting(c)
  {
    match c
    case Leaf(_) =>
    case Group(open, body, close) =>
      NestingIsMaxOpen(body);
      OpenConcat([open] + Yield(body), [close]);
      OpenConcat([open], Yield(body));
    case WithTree(atom, op, exc) =>
      NestingIsMaxOpen(atom);
      ChainOpen(Yield(atom), op, [exc]);
    case Chain(l, op, r) =>
      NestingIsMaxOpen(l);
      NestingIsMaxOpen(r);
      ChainOpen(Yield(l), op, Yield(r));
  }
}
