/** What every legal expression is read back as once it is printed, with WITH on whatever it stands on. */
module SpdxReading {
  import opened Results
  import opened SpdxSyntax
  import opened SpdxTokenizer
  import opened SpdxParser
  import opened SpdxGrammar
  import opened SpdxAcceptance
  import opened SpdxPrinter
  import opened SpdxRoundTrip
  import opened SpdxExactness

  // ----- the derivation of a printed expression -----

  predicate OrChain(c: Tree) {
    c.Chain? && c.op.kind.OrOp?
  }

  /** Two operands side by side: AND takes the last operand of an OR on its left and the first on its right. */
  function Beside(l: Tree, op: Token, r: Tree): Tree {
    if op.kind.AndOp? && OrChain(r) then Chain(Beside(l, op, r.left), r.op, r.right)
    else if op.kind.AndOp? && OrChain(l) then Chain(l.left, l.op, Beside(l.right, op, r))
    else Join(l, op, r)
  }

  /** The tree ends in an exception. */
  predicate EndsInException(c: Tree) {
    c.WithTree? || (c.Chain? && EndsInException(c.right))
  }

  /** WITH binds to the last operand. */
  function Attach(c: Tree, op: Token, exc: Token): Tree {
    if c.Chain? then Chain(c.left, c.op, Attach(c.right, op, exc)) else WithTree(c, op, exc)
  }

  /** The tokens of the printed form of n, arranged as the grammar reads them. */
  function ReadTree(n: Node, pos: nat): Tree
    decreases n, 0
  {
    match n
    case Simple(identifier, orLater) => Leaf(Token(KindOf(identifier, orLater), identifier, pos))
    case With(l, exception) =>
      var end := pos + |Print(l)|;
      Attach(ReadTree(l, pos), Token(WithOp, "WITH", end + 1), Token(KindOf(exception, false), exception, end + 6))
    case And(l, r) =>
      var end := pos + |WrapIfOr(l)|;
      Beside(OperandTree(l, pos), Token(AndOp, "AND", end + 1), OperandTree(r, end + 5))
    case Or(l, r) =>
      var end := pos + |Print(l)|;
      Beside(ReadTree(l, pos), Token(OrOp, "OR", end + 1), ReadTree(r, end + 4))
  }

  function OperandTree(n: Node, pos: nat): Tree
    decreases n, 1
  {
    if n.Or? then
      Group(Token(LParen, "(", pos), ReadTree(n, pos + 1), Token(RParen, ")", pos + 1 + |Print(n)|))
    else ReadTree(n, pos)
  }

  /** The printed form ends in an exception: WITH printed behind it would stand behind another WITH. */
  predicate PrintsException(n: Node) {
    match n
    case Simple(_, _) => false
    case With(_, _) => true
    case And(_, r) => !r.Or? && PrintsException(r)
    case Or(_, r) => PrintsException(r)
  }

  /** No WITH is printed directly behind another. */
  predicate WithApart(n: Node) {
    match n
    case Simple(_, _) => true
    case With(l, _) => WithApart(l) && !PrintsException(l)
    case And(l, r) => WithApart(l) && WithApart(r)
    case Or(l, r) => WithApart(l) && WithApart(r)
  }

  // ----- it covers the printed tokens -----

  lemma {:induction false} BesideYields(l: Tree, op: Token, r: Tree)
    ensures Yield(Beside(l, op, r)) == Yield(l) + [op] + Yield(r)
    ensures EndsInException(Beside(l, op, r)) == EndsInException(r)
  {
    hide Join;
    if op.kind.AndOp? && OrChain(r) {
      BesideYields(l, op, r.left);
      Associates(Yield(l), op, Yield(r.left), r.op, Yield(r.right));
    } else if op.kind.AndOp? && OrChain(l) {
      BesideYields(l.right, op, r);
      Associates(Yield(l.left), l.op, Yield(l.right), op, Yield(r));
    } else {
      JoinYields(l, op, r);
      JoinEnds(l, op, r);
    }
  }

  lemma Associates(a: seq<Token>, p: Token, b: seq<Token>, q: Token, c: seq<Token>)
    ensures (a + [p] + b) + [q] + c == a + [p] + (b + [q] + c)
  {
  }

  lemma JoinEnds(l: Tree, op: Token, r: Tree)
    ensures EndsInException(Join(l, op, r)) == EndsInException(r)
  {
  }

  lemma {:induction false} AttachYields(c: Tree, op: Token, exc: Token)
    ensures Yield(Attach(c, op, exc)) == Yield(c) + [op] + [exc] && EndsInException(Attach(c, op, exc))
  {
    if c.Chain? {
      AttachYields(c.right, op, exc);
      assert Yield(c.left) + [c.op] + (Yield(c.right) + [op] + [exc])
          == (Yield(c.left) + [c.op] + Yield(c.right)) + [op] + [exc];
    }
  }

  lemma {:induction false} ReadTreeYields(n: Node, pos: nat)
    ensures Yield(ReadTree(n, pos)) == Yield(PrintedTree(n, pos))
    ensures EndsInException(ReadTree(n, pos)) == PrintsException(n)
    decreases n, 0
  {
    hide KindOf, Print, WrapIfOr, Beside, Join, Attach;
    match n
    case Simple(_, _) =>
    case With(l, exception) =>
      var end := pos + |Print(l)|;
      ReadTreeYields(l, pos);
      AttachYields(ReadTree(l, pos), Token(WithOp, "WITH", end + 1), Token(KindOf(exception, false), exception, end + 6));
    case And(l, r) =>
      var end := pos + |WrapIfOr(l)|;
      OperandTreeYields(l, pos);
      OperandTreeYields(r, end + 5);
      BesideYields(OperandTree(l, pos), Token(AndOp, "AND", end + 1), OperandTree(r, end + 5));
      JoinYields(WrappedTree(l, pos), Token(AndOp, "AND", end + 1), WrappedTree(r, end + 5));
    case Or(l, r) =>
      var end := pos + |Print(l)|;
      ReadTreeYields(l, pos);
      ReadTreeYields(r, end + 4);
      BesideYields(ReadTree(l, pos), Token(OrOp, "OR", end + 1), ReadTree(r, end + 4));
      JoinYields(PrintedTree(l, pos), Token(OrOp, "OR", end + 1), PrintedTree(r, end + 4));
  }

  lemma {:induction false} OperandTreeYields(n: Node, pos: nat)
    ensures Yield(OperandTree(n, pos)) == Yield(WrappedTree(n, pos))
    ensures EndsInException(OperandTree(n, pos)) <==> !n.Or? && PrintsException(n)
    decreases n, 1
  {
    ReadTreeYields(n, if n.Or? then pos + 1 else pos);
  }

  // ----- it is a derivation exactly when no WITH stands behind another -----

  lemma {:induction false} BesideDerives(l: Tree, op: Token, r: Tree)
    requires Derivation(l) && Derivation(r) && (op.kind.AndOp? || op.kind.OrOp?)
    ensures Derivation(Beside(l, op, r)) && Beside(l, op, r).Chain?
    ensures op.kind.AndOp? && (OrChain(l) || OrChain(r)) ==> Level(Beside(l, op, r)) == 3
    ensures op.kind.AndOp? && !OrChain(l) && !OrChain(r) ==> Level(Beside(l, op, r)) == 2
  {
    if op.kind.AndOp? && OrChain(r) {
      BesideDerives(l, op, r.left);
    } else if op.kind.AndOp? && OrChain(l) {
      BesideDerives(l.right, op, r);
    } else {
      JoinDerives(l, op, r);
    }
  }

  lemma {:induction false} AttachDerives(c: Tree, op: Token, exc: Token)
    requires Derivation(c) && !EndsInException(c)
    requires op.kind.WithOp? && (exc.kind.LicenseId? || exc.kind.LicenseRef?)
    ensures Derivation(Attach(c, op, exc)) && Level(Attach(c, op, exc)) == if Level(c) == 0 then 1 else Level(c)
  {
    if c.Chain? {
      AttachDerives(c.right, op, exc);
    }
  }

  lemma {:induction false} ReadTreeDerives(n: Node, pos: nat)
    requires LegalNames(n) && WithApart(n)
    ensures Derivation(ReadTree(n, pos))
    decreases n, 0
  {
    hide KindOf, Print, WrapIfOr, Beside, Attach, LegalLicense, LegalException, IsLicense;
    match n
    case Simple(identifier, orLater) =>
      KindOfIsLicense(identifier, orLater);
    case With(l, exception) =>
      var end := pos + |Print(l)|;
      KindOfIsLicense(exception, false);
      ReadTreeDerives(l, pos);
      ReadTreeYields(l, pos);
      AttachDerives(ReadTree(l, pos), Token(WithOp, "WITH", end + 1), Token(KindOf(exception, false), exception, end + 6));
    case And(l, r) =>
      var end := pos + |WrapIfOr(l)|;
      OperandTreeDerives(l, pos);
      OperandTreeDerives(r, end + 5);
      BesideDerives(OperandTree(l, pos), Token(AndOp, "AND", end + 1), OperandTree(r, end + 5));
    case Or(l, r) =>
      var end := pos + |Print(l)|;
      ReadTreeDerives(l, pos);
      ReadTreeDerives(r, end + 4);
      BesideDerives(ReadTree(l, pos), Token(OrOp, "OR", end + 1), ReadTree(r, end + 4));
  }

  lemma {:induction false} OperandTreeDerives(n: Node, pos: nat)
    requires LegalNames(n) && WithApart(n)
    ensures Derivation(OperandTree(n, pos))
    decreases n, 1
  {
    ReadTreeDerives(n, if n.Or? then pos + 1 else pos);
  }

  // ----- WITH behind another WITH is never read -----

  /** WITH, one more token, and WITH again. */
  predicate WithTwice(ts: seq<Token>) {
    exists i :: 0 <= i < |ts| - 2 && ts[i].kind.WithOp? && ts[i + 2].kind.WithOp?
  }

  predicate WithAt(ts: seq<Token>, i: int) {
    0 <= i < |ts| && ts[i].kind.WithOp?
  }

  lemma TwiceInTwo(a: seq<Token>, b: seq<Token>)
    ensures WithTwice(a + b) <==>
            || WithTwice(a) || WithTwice(b)
            || (WithAt(a, |a| - 2) && WithAt(b, 0)) || (WithAt(a, |a| - 1) && WithAt(b, 1))
  {
    var ts := a + b;
    assert forall k :: 0 <= k < |a| ==> ts[k] == a[k];
    assert forall k :: 0 <= k < |b| ==> ts[|a| + k] == b[k];
    if i :| 0 <= i < |b| - 2 && b[i].kind.WithOp? && b[i + 2].kind.WithOp? {
      assert ts[|a| + i].kind.WithOp? && ts[|a| + i + 2].kind.WithOp?;
    }
    if WithAt(a, |a| - 2) && WithAt(b, 0) {
      assert ts[|a| - 2].kind.WithOp? && ts[|a| - 2 + 2].kind.WithOp?;
    }
    if WithAt(a, |a| - 1) && WithAt(b, 1) {
      assert ts[|a| - 1].kind.WithOp? && ts[|a| - 1 + 2].kind.WithOp?;
    }
    if i :| 0 <= i < |ts| - 2 && ts[i].kind.WithOp? && ts[i + 2].kind.WithOp? {
      assert i >= |a| ==> b[i - |a|].kind.WithOp? && b[i - |a| + 2].kind.WithOp?;
    }
  }

  lemma TwiceInThree(a: seq<Token>, op: Token, b: seq<Token>)
    requires b != [] && !WithAt(b, 0) && !WithAt(a, |a| - 1)
    ensures WithTwice(a + [op] + b) <==>
            || WithTwice(a) || WithTwice(b)
            || (WithAt(a, |a| - 2) && op.kind.WithOp?) || (op.kind.WithOp? && WithAt(b, 1))
  {
    TwiceInTwo(a + [op], b);
    TwiceInTwo(a, [op]);
    assert |a| > 0 ==> (a + [op])[|a| - 1] == a[|a| - 1];
  }

  /** First, second and last but one token of a derivation. */
  lemma {:induction false} DerivationHasWithApart(c: Tree)
    requires Derivation(c)
    ensures !WithTwice(Yield(c)) && !WithAt(Yield(c), 0) && !WithAt(Yield(c), |Yield(c)| - 1)
    ensures Level(c) == 0 ==> !WithAt(Yield(c), |Yield(c)| - 2)
  {
    hide WithTwice;
    match c
    case Leaf(t) =>
      NotTwice([t]);
    case Group(open, body, close) =>
      DerivationHasWithApart(body);
      NotTwice([open]);
      NotTwice([close]);
      TwiceInTwo([open] + Yield(body), [close]);
      TwiceInTwo([open], Yield(body));
    case WithTree(atom, op, exc) =>
      DerivationHasWithApart(atom);
      NotTwice([exc]);
      TwiceInThree(Yield(atom), op, [exc]);
    case Chain(l, op, r) =>
      DerivationHasWithApart(l);
      DerivationHasWithApart(r);
      TwiceInThree(Yield(l), op, Yield(r));
  }

  lemma NotTwice(ts: seq<Token>)
    requires |ts| <= 2
    ensures !WithTwice(ts)
  {
  }

  lemma TwiceSpreads(a: seq<Token>, op: Token, b: seq<Token>)
    ensures WithTwice(a) || WithTwice(b) || (WithAt(a, |a| - 2) && op.kind.WithOp?) ==> WithTwice(a + [op] + b)
    ensures WithAt(b, |b| - 2) ==> WithAt(a + [op] + b, |a + [op] + b| - 2)
    ensures |b| == 1 && op.kind.WithOp? ==> WithAt(a + [op] + b, |a + [op] + b| - 2)
  {
    TwiceInTwo(a + [op], b);
    TwiceInTwo(a, [op]);
    hide WithTwice;
  }

  lemma {:induction false} PrintsTwice(n: Node, pos: nat)
    ensures !WithApart(n) ==> WithTwice(Yield(ReadTree(n, pos)))
    ensures PrintsException(n) ==> WithAt(Yield(ReadTree(n, pos)), |Yield(ReadTree(n, pos))| - 2)
    decreases n, 0
  {
    hide KindOf, Print, WrapIfOr, Beside, Attach, WithTwice, Yield;
    match n
    case Simple(_, _) =>
    case With(l, exception) =>
      var end := pos + |Print(l)|;
      var op, exc := Token(WithOp, "WITH", end + 1), Token(KindOf(exception, false), exception, end + 6);
      PrintsTwice(l, pos);
      AttachYields(ReadTree(l, pos), op, exc);
      TwiceSpreads(Yield(ReadTree(l, pos)), op, [exc]);
    case And(l, r) =>
      var end := pos + |WrapIfOr(l)|;
      var tl, op, tr := OperandTree(l, pos), Token(AndOp, "AND", end + 1), OperandTree(r, end + 5);
      OperandPrintsTwice(l, pos);
      OperandPrintsTwice(r, end + 5);
      BesideYields(tl, op, tr);
      TwiceSpreads(Yield(tl), op, Yield(tr));
    case Or(l, r) =>
      var end := pos + |Print(l)|;
      var tl, op, tr := ReadTree(l, pos), Token(OrOp, "OR", end + 1), ReadTree(r, end + 4);
      PrintsTwice(l, pos);
      PrintsTwice(r, end + 4);
      BesideYields(tl, op, tr);
      TwiceSpreads(Yield(tl), op, Yield(tr));
  }

  lemma {:induction false} OperandPrintsTwice(n: Node, pos: nat)
    ensures !WithApart(n) ==> WithTwice(Yield(OperandTree(n, pos)))
    ensures !n.Or? && PrintsException(n) ==> WithAt(Yield(OperandTree(n, pos)), |Yield(OperandTree(n, pos))| - 2)
    decreases n, 1
  {
    hide WithTwice;
    if n.Or? {
      PrintsTwice(n, pos + 1);
      var open, close := Token(LParen, "(", pos), Token(RParen, ")", pos + 1 + |Print(n)|);
      var body := Yield(ReadTree(n, pos + 1));
      TwiceSpreads([], open, body);
      assert [] + [open] + body == [open] + body;
      TwiceInTwo([open] + body, [close]);
    } else {
      PrintsTwice(n, pos);
    }
  }

  // ----- what is read -----

  /**
   * A printed expression is read again exactly when it nests at most 32 deep and no WITH stands
   * directly behind another, and then as the grammar groups its tokens.
   */
  lemma ReadsExactly(n: Node)
    requires LegalNames(n)
    ensures Read(Print(n)).Ok? <==> WithApart(n) && PrintedNesting(n) <= MAX_NESTING_DEPTH
    ensures Read(Print(n)).Ok? ==> Read(Print(n)).value == Ast(ReadTree(n, 0))
  {
    hide Lex, Parse, Print, PrintedTree, ReadTree, Yield, WithTwice, LegalNames, Derivation, MaxOpen;
    var ts := Yield(ReadTree(n, 0));
    PrintedTokens(n);
    ReadTreeYields(n, 0);
    PrintedTreeIsCanonical(n, 0);
    NestingIsMaxOpen(PrintedTree(n, 0));
    if WithApart(n) && PrintedNesting(n) <= MAX_NESTING_DEPTH {
      ReadTreeDerives(n, 0);
      ParseOfYield(ReadTree(n, 0));
    }
    if Parse(ts).Ok? {
      var c := ParsedDerivation(ts);
      DerivationHasWithApart(c);
      PrintsTwice(n, 0);
    }
  }

  // ----- which expressions keep their licenses -----

  lemma {:induction false} JoinLeaves(l: Tree, op: Token, r: Tree)
    ensures |Leaves(Ast(Join(l, op, r)))| == |Leaves(Ast(l))| + |Leaves(Ast(r))| && Join(l, op, r).Chain?
  {
    if r.Chain? && r.op.kind == op.kind {
      JoinLeaves(l, op, r.left);
    }
  }

  lemma {:induction false} BesideLeaves(l: Tree, op: Token, r: Tree)
    ensures |Leaves(Ast(Beside(l, op, r)))| == |Leaves(Ast(l))| + |Leaves(Ast(r))| && Beside(l, op, r).Chain?
  {
    hide Join;
    if op.kind.AndOp? && OrChain(r) {
      BesideLeaves(l, op, r.left);
    } else if op.kind.AndOp? && OrChain(l) {
      BesideLeaves(l.right, op, r);
    } else {
      JoinLeaves(l, op, r);
    }
  }

  lemma SomeLeaf(n: Node)
    ensures |Leaves(n)| >= 1
  {
  }

  lemma AttachLeaves(c: Tree, op: Token, exc: Token)
    ensures |Leaves(Ast(Attach(c, op, exc)))| >= if c.Chain? then 2 else 1
    ensures Attach(c, op, exc).WithTree? || Attach(c, op, exc).Chain?
  {
    SomeLeaf(Ast(Attach(c, op, exc)));
    if c.Chain? {
      hide Leaves;
      SomeLeaf(Ast(c.left));
      SomeLeaf(Ast(Attach(c.right, op, exc)));
      LeavesInTwo(Ast(Attach(c, op, exc)));
    }
  }

  lemma LeavesInTwo(n: Node)
    requires n.And? || n.Or?
    ensures Leaves(n) == Leaves(n.left) + Leaves(n.right)
  {
  }

  /** No license is lost by reading a printed expression back, and WITH over a compound makes more of them. */
  lemma {:induction false} ReadLeaves(n: Node, pos: nat)
    requires WithApart(n)
    ensures |Leaves(Ast(ReadTree(n, pos)))| >= |Leaves(n)|
    ensures !WithPlain(n) ==> |Leaves(Ast(ReadTree(n, pos)))| > |Leaves(n)|
    ensures !ReadTree(n, pos).Group? && (ReadTree(n, pos).Leaf? <==> n.Simple?)
    decreases n, 0
  {
    hide KindOf, Print, WrapIfOr, Beside, Attach;
    match n
    case Simple(_, _) =>
    case With(l, exception) =>
      var end := pos + |Print(l)|;
      ReadLeaves(l, pos);
      ReadTreeYields(l, pos);
      AttachLeaves(ReadTree(l, pos), Token(WithOp, "WITH", end + 1), Token(KindOf(exception, false), exception, end + 6));
    case And(l, r) =>
      var end := pos + |WrapIfOr(l)|;
      OperandLeaves(l, pos);
      OperandLeaves(r, end + 5);
      BesideLeaves(OperandTree(l, pos), Token(AndOp, "AND", end + 1), OperandTree(r, end + 5));
    case Or(l, r) =>
      var end := pos + |Print(l)|;
      ReadLeaves(l, pos);
      ReadLeaves(r, end + 4);
      BesideLeaves(ReadTree(l, pos), Token(OrOp, "OR", end + 1), ReadTree(r, end + 4));
  }

  lemma {:induction false} OperandLeaves(n: Node, pos: nat)
    requires WithApart(n)
    ensures |Leaves(Ast(OperandTree(n, pos)))| >= |Leaves(n)|
    ensures !WithPlain(n) ==> |Leaves(Ast(OperandTree(n, pos)))| > |Leaves(n)|
    decreases n, 1
  {
    ReadLeaves(n, if n.Or? then pos + 1 else pos);
  }

  /**
   * Printing and reading back keeps the licenses of an expression, in order, exactly when WITH is on
   * plain licenses only and the text nests at most 32 deep; and then it keeps the meaning.
   */
  lemma LicensesSurviveExactly(n: Node, accepted: Node -> bool)
    requires LegalNames(n)
    ensures Read(Print(n)).Ok? && Leaves(Read(Print(n)).value) == Leaves(n) <==>
            WithPlain(n) && PrintedNesting(n) <= MAX_NESTING_DEPTH
    ensures Read(Print(n)).Ok? && Leaves(Read(Print(n)).value) == Leaves(n) ==>
              Eval(Read(Print(n)).value, accepted) == Eval(n, accepted)
  {
    hide Read, Print, ReadTree, Leaves, Eval;
    ReadsExactly(n);
    if WithPlain(n) && PrintedNesting(n) <= MAX_NESTING_DEPTH {
      RoundTripKeepsMeaning(n, accepted);
    }
    if Read(Print(n)).Ok? {
      ReadLeaves(n, 0);
    }
  }
}
