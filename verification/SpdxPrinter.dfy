/** The SPDX printer: parentheses only around an OR that is an operand of AND. */
module SpdxPrinter {
  import opened SpdxSyntax

  function Print(n: Node): string
    decreases n, 0
  {
    match n
    case Simple(identifier, orLater) => if orLater then identifier + "+" else identifier
    case With(license, exception) => Print(license) + " WITH " + exception
    case And(left, right) => WrapIfOr(left) + " AND " + WrapIfOr(right)
    case Or(left, right) => Print(left) + " OR " + Print(right)
  }

  function WrapIfOr(n: Node): string
    decreases n, 1
  {
    if n.Or? then "(" + Print(n) + ")" else Print(n)
  }

  /** Depth of the parentheses the printer writes. */
  function PrintedNesting(n: Node): nat
    decreases n, 0
  {
    match n
    case Simple(_, _) => 0
    case With(l, _) => PrintedNesting(l)
    case And(l, r) => Deeper(WrappedNesting(l), WrappedNesting(r))
    case Or(l, r) => Deeper(PrintedNesting(l), PrintedNesting(r))
  }

  function WrappedNesting(n: Node): nat
    decreases n, 1
  {
    if n.Or? then 1 + PrintedNesting(n) else PrintedNesting(n)
  }

  function Deeper(a: nat, b: nat): nat {
    if a < b then b else a
  }

  // ----- the left-nested form of an expression -----

  function JoinAnd(a: Node, b: Node): Node {
    if b.And? then And(JoinAnd(a, b.left), b.right) else And(a, b)
  }

  function JoinOr(a: Node, b: Node): Node {
    if b.Or? then Or(JoinOr(a, b.left), b.right) else Or(a, b)
  }

  /** Re-associate every chain of AND and every chain of OR to the left. */
  function Canonical(n: Node): Node {
    match n
    case Simple(_, _) => n
    case With(l, e) => With(Canonical(l), e)
    case And(l, r) => JoinAnd(Canonical(l), Canonical(r))
    case Or(l, r) => JoinOr(Canonical(l), Canonical(r))
  }

  lemma {:induction false} JoinKeeps(a: Node, b: Node, accepted: Node -> bool)
    ensures Leaves(JoinAnd(a, b)) == Leaves(a) + Leaves(b) && Leaves(JoinOr(a, b)) == Leaves(a) + Leaves(b)
    ensures Eval(JoinAnd(a, b), accepted) == (Eval(a, accepted) && Eval(b, accepted))
    ensures Eval(JoinOr(a, b), accepted) == (Eval(a, accepted) || Eval(b, accepted))
  {
    if b.And? || b.Or? {
      JoinKeeps(a, b.left, accepted);
      assert Leaves(a) + Leaves(b.left) + Leaves(b.right) == Leaves(a) + Leaves(b);
    }
  }

  /** Re-association keeps the licenses mentioned, their order and what the expression means. */
  lemma {:induction false} CanonicalKeepsMeaning(n: Node, accepted: Node -> bool)
    requires WithPlain(n)
    ensures Leaves(Canonical(n)) == Leaves(n) && Eval(Canonical(n), accepted) == Eval(n, accepted)
  {
    if n.And? || n.Or? {
      CanonicalKeepsMeaning(n.left, accepted);
      CanonicalKeepsMeaning(n.right, accepted);
      JoinKeeps(Canonical(n.left), Canonical(n.right), accepted);
    }
  }

  lemma {:induction false} JoinPrints(a: Node, b: Node)
    ensures Print(JoinAnd(a, b)) == Print(And(a, b))
    ensures Print(JoinOr(a, b)) == Print(Or(a, b))
    ensures JoinAnd(a, b).And? && JoinOr(a, b).Or?
  {
    if b.And? {
      JoinPrints(a, b.left);
      assert Print(And(a, b)) == WrapIfOr(a) + " AND " + Print(b);
      assert Print(JoinAnd(a, b)) == Print(And(a, b.left)) + " AND " + WrapIfOr(b.right);
      assert WrapIfOr(a) + " AND " + WrapIfOr(b.left) + " AND " + WrapIfOr(b.right)
          == WrapIfOr(a) + " AND " + (WrapIfOr(b.left) + " AND " + WrapIfOr(b.right));
    } else if b.Or? {
      JoinPrints(a, b.left);
      assert Print(a) + " OR " + Print(b.left) + " OR " + Print(b.right)
          == Print(a) + " OR " + (Print(b.left) + " OR " + Print(b.right));
    }
  }

  /** The printer cannot tell an expression from its left-nested form. */
  lemma {:induction false} CanonicalPrintsAlike(n: Node)
    ensures Print(Canonical(n)) == Print(n)
    ensures Canonical(n).And? == n.And? && Canonical(n).Or? == n.Or?
  {
    match n
    case Simple(_, _) =>
    case With(l, _) =>
      CanonicalPrintsAlike(l);
    case And(l, r) =>
      CanonicalPrintsAlike(l);
      CanonicalPrintsAlike(r);
      JoinPrints(Canonical(l), Canonical(r));
    case Or(l, r) =>
      CanonicalPrintsAlike(l);
      CanonicalPrintsAlike(r);
      JoinPrints(Canonical(l), Canonical(r));
  }

  lemma {:induction false} JoinLeftNests(a: Node, b: Node)
    requires LeftNested(a) && LeftNested(b)
    ensures LeftNested(JoinAnd(a, b)) && LeftNested(JoinOr(a, b))
    ensures WithPlain(a) && WithPlain(b) ==> WithPlain(JoinAnd(a, b)) && WithPlain(JoinOr(a, b))
  {
    if b.And? || b.Or? {
      JoinLeftNests(a, b.left);
    }
  }

  /** The canonical form is left-nested, and it is the expression itself exactly if that is. */
  lemma {:induction false} CanonicalIsLeftNested(n: Node)
    ensures LeftNested(Canonical(n)) && (WithPlain(n) ==> WithPlain(Canonical(n)))
    ensures Canonical(n) == n <==> LeftNested(n)
  {
    match n
    case Simple(_, _) =>
    case With(l, _) =>
      CanonicalIsLeftNested(l);
    case And(l, r) =>
      CanonicalIsLeftNested(l);
      CanonicalIsLeftNested(r);
      JoinLeftNests(Canonical(l), Canonical(r));
    case Or(l, r) =>
      CanonicalIsLeftNested(l);
      CanonicalIsLeftNested(r);
      JoinLeftNests(Canonical(l), Canonical(r));
  }
}
