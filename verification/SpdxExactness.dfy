/** Exactly which expressions survive printing and reading back, and what the others become. */
module SpdxExactness {
  import opened Results
  import opened SpdxSyntax
  import opened SpdxTokenizer
  import opened SpdxLexing
  import opened SpdxParser
  import opened SpdxGrammar
  import opened SpdxAcceptance
  import opened SpdxPrinter
  import opened SpdxRoundTrip

  // ----- shape of the printed tree -----

  /** Every group holds an OR chain, and no operand of an OR chain is a group. */
  predicate Tidy(c: Tree) {
    match c
    case Leaf(_) => true
    case Group(_, body, _) => body.Chain? && body.op.kind.OrOp? && Tidy(body)
    case WithTree(atom, _, _) => Tidy(atom)
    case Chain(l, op, r) =>
      && (op.kind.AndOp? || op.kind.OrOp?) && Tidy(l) && Tidy(r)
      && (op.kind.OrOp? ==> !l.Group? && !r.Group?)
  }

  lemma {:induction false} JoinAst(l: Tree, op: Token, r: Tree)
    requires Tidy(l) && Tidy(r) && (op.kind.AndOp? || op.kind.OrOp?)
    requires op.kind.OrOp? ==> !l.Group? && !r.Group?
    ensures Tidy(Join(l, op, r)) && Join(l, op, r).Chain? && Join(l, op, r).op.kind == op.kind
    ensures Ast(Join(l, op, r)) == if op.kind.AndOp? then JoinAnd(Ast(l), Ast(r)) else JoinOr(Ast(l), Ast(r))
  {
    if r.Chain? && r.op.kind == op.kind {
      JoinAst(l, op, r.left);
    }
  }

  lemma {:induction false} JoinDerives(l: Tree, op: Token, r: Tree)
    requires Derivation(l) && Derivation(r) && (op.kind.AndOp? || op.kind.OrOp?)
    requires op.kind.AndOp? ==> Level(l) <= 2 && Level(r) <= 2
    ensures Derivation(Join(l, op, r)) && Level(Join(l, op, r)) == if op.kind.AndOp? then 2 else 3
  {
    if r.Chain? && r.op.kind == op.kind {
      JoinDerives(l, op, r.left);
    }
  }

  lemma KindOfIsLicense(identifier: string, orLater: bool)
    ensures IsLicense(KindOf(identifier, orLater))
    ensures KindOf(identifier, orLater).OrLater? <==> orLater
    ensures LegalException(identifier) && !orLater ==>
              KindOf(identifier, orLater).LicenseId? || KindOf(identifier, orLater).LicenseRef?
  {
    if IsDocumentRef(identifier) {
      IdentIsNoDocumentRef(identifier);
    }
  }

  predicate Canonically(n: Node, c: Tree) {
    Tidy(c) && Ast(c) == Canonical(n) && ParensInGroups(c)
  }

  /** The printed tree stands for the left-nested form, and nests as deep as the printed text. */
  lemma {:induction false} PrintedTreeIsCanonical(n: Node, pos: nat)
    ensures var c := PrintedTree(n, pos);
            && Canonically(n, c) && Nesting(c) == PrintedNesting(n)
            && !c.Group? && (n.Or? ==> c.Chain? && c.op.kind.OrOp?)
    decreases n, 0
  {
    hide KindOf, Print, WrapIfOr, Join, JoinAnd, JoinOr, IsLicense;
    match n
    case Simple(identifier, orLater) =>
      KindOfIsLicense(identifier, orLater);
      LeafParens(Token(KindOf(identifier, orLater), identifier, pos));
    case With(l, exception) =>
      PrintedTreeIsCanonical(l, pos);
      KindOfIsLicense(exception, false);
      LeafParens(Token(KindOf(exception, false), exception, pos + |Print(l)| + 6));
    case And(l, r) =>
      var end := pos + |WrapIfOr(l)|;
      WrappedTreeIsCanonical(l, pos);
      WrappedTreeIsCanonical(r, end + 5);
      JoinIsCanonical(l, WrappedTree(l, pos), Token(AndOp, "AND", end + 1), r, WrappedTree(r, end + 5));
    case Or(l, r) =>
      var end := pos + |Print(l)|;
      PrintedTreeIsCanonical(l, pos);
      PrintedTreeIsCanonical(r, end + 4);
      JoinIsCanonical(l, PrintedTree(l, pos), Token(OrOp, "OR", end + 1), r, PrintedTree(r, end + 4));
  }

  lemma LeafParens(t: Token)
    requires IsLicense(t.kind)
    ensures Delta(t) == 0
  {
  }

  lemma JoinIsCanonical(l: Node, tl: Tree, op: Token, r: Node, tr: Tree)
    requires Canonically(l, tl) && Canonically(r, tr) && (op.kind.AndOp? || op.kind.OrOp?)
    requires op.kind.OrOp? ==> !tl.Group? && !tr.Group?
    ensures Canonically(if op.kind.AndOp? then And(l, r) else Or(l, r), Join(tl, op, tr))
    ensures Join(tl, op, tr).Chain? && Join(tl, op, tr).op.kind == op.kind
    ensures Nesting(Join(tl, op, tr)) == Max(Nesting(tl), Nesting(tr))
  {
    hide Join;
    JoinAst(tl, op, tr);
    JoinYields(tl, op, tr);
  }

  lemma {:induction false} WrappedTreeIsCanonical(n: Node, pos: nat)
    ensures Canonically(n, WrappedTree(n, pos)) && Nesting(WrappedTree(n, pos)) == WrappedNesting(n)
    decreases n, 1
  {
    PrintedTreeIsCanonical(n, if n.Or? then pos + 1 else pos);
  }

  function Precedence(n: Node): nat {
    match n
    case Simple(_, _) => 0
    case With(_, _) => 1
    case And(_, _) => 2
    case Or(_, _) => 3
  }

  lemma {:induction false} PrintedTreeDerives(n: Node, pos: nat)
    requires WithPlain(n) && LegalNames(n)
    ensures Derivation(PrintedTree(n, pos)) && Level(PrintedTree(n, pos)) == Precedence(n)
    decreases n, 0
  {
    hide KindOf, Print, WrapIfOr, Join, LegalLicense, LegalException, IsLicense;
    match n
    case Simple(identifier, orLater) =>
      KindOfIsLicense(identifier, orLater);
    case With(l, exception) =>
      KindOfIsLicense(exception, false);
      PrintedTreeDerives(l, pos);
    case And(l, r) =>
      var end := pos + |WrapIfOr(l)|;
      WrappedTreeDerives(l, pos);
      WrappedTreeDerives(r, end + 5);
      JoinDerives(WrappedTree(l, pos), Token(AndOp, "AND", end + 1), WrappedTree(r, end + 5));
    case Or(l, r) =>
      var end := pos + |Print(l)|;
      PrintedTreeDerives(l, pos);
      PrintedTreeDerives(r, end + 4);
      JoinDerives(PrintedTree(l, pos), Token(OrOp, "OR", end + 1), PrintedTree(r, end + 4));
  }

  lemma {:induction false} WrappedTreeDerives(n: Node, pos: nat)
    requires WithPlain(n) && LegalNames(n)
    ensures Derivation(WrappedTree(n, pos)) && Level(WrappedTree(n, pos)) <= 2
    decreases n, 1
  {
    PrintedTreeDerives(n, if n.Or? then pos + 1 else pos);
  }

  // ----- reading back what was printed -----

  lemma PrintedTokens(n: Node)
    requires LegalNames(n)
    ensures Lex(Print(n), 0) == Ok(Yield(PrintedTree(n, 0)))
  {
    var e := Print(n);
    assert e[0..|e|] == e;
    PrintedLexes(e, 0, n);
    assert Yield(PrintedTree(n, 0)) + [] == Yield(PrintedTree(n, 0));
  }

  /** A printed expression is read back as its left-nested form, unless it nests too deep. */
  lemma ReadPrinted(n: Node)
    requires LegalNames(n) && WithPlain(n)
    ensures PrintedNesting(n) <= MAX_NESTING_DEPTH ==> Read(Print(n)) == Ok(Canonical(n))
    ensures PrintedNesting(n) > MAX_NESTING_DEPTH ==> Read(Print(n)).Err?
  {
    var c := PrintedTree(n, 0);
    PrintedTokens(n);
    PrintedTreeDerives(n, 0);
    PrintedTreeIsCanonical(n, 0);
    NestingIsMaxOpen(c);
    if PrintedNesting(n) <= MAX_NESTING_DEPTH {
      ParseOfYield(c);
    } else if Parse(Yield(c)).Ok? {
      var _ := ParsedDerivation(Yield(c));
    }
  }

  /** What survives: the same licenses in the same order with the same meaning, and often the same tree. */
  lemma RoundTripKeepsMeaning(n: Node, accepted: Node -> bool)
    requires LegalNames(n) && WithPlain(n) && PrintedNesting(n) <= MAX_NESTING_DEPTH
    ensures Read(Print(n)).Ok?
    ensures Leaves(Read(Print(n)).value) == Leaves(n)
    ensures Eval(Read(Print(n)).value, accepted) == Eval(n, accepted)
    ensures Read(Print(n)).value == n <==> LeftNested(n)
  {
    ReadPrinted(n);
    CanonicalKeepsMeaning(n, accepted);
    CanonicalIsLeftNested(n);
  }

  // ----- everything that is read has legal names and is printed no deeper than it was written -----

  lemma {:induction false} LegalFromTokens(c: Tree)
    requires Derivation(c) && forall t :: t in Yield(c) ==> Fits(t)
    ensures LegalNames(Ast(c))
  {
    hide IsIdent, IsKeyword, IsLicenseRef, IsDocumentRef;
    match c
    case Leaf(t) =>
      assert t in Yield(c);
      if t.kind.LicenseRef? {
        LicenseRefIsIdent(t.value);
      }
    case Group(_, body, _) =>
      assert forall t :: t in Yield(body) ==> t in Yield(c);
      LegalFromTokens(body);
    case WithTree(atom, _, exc) =>
      assert exc in Yield(c);
      assert forall t :: t in Yield(atom) ==> t in Yield(c);
      LegalFromTokens(atom);
      ReferenceIsLegalException(exc);
    case Chain(l, op, r) =>
      assert forall t :: t in Yield(l) ==> t in Yield(c);
      assert forall t :: t in Yield(r) ==> t in Yield(c);
      LegalFromTokens(l);
      LegalFromTokens(r);
  }

  lemma ReferenceIsLegalException(t: Token)
    requires Fits(t) && (t.kind.LicenseRef? || t.kind.LicenseId?)
    ensures LegalException(t.value)
  {
    if t.kind.LicenseRef? {
      LicenseRefIsIdent(t.value);
    }
  }

  lemma LicenseRefIsIdent(s: string)
    requires IsLicenseRef(s)
    ensures IsIdent(s) && !IsKeyword(s)
  {
    var k := |LICENSE_REF|;
    assert |UpperCase(s)| > 4;
    forall i | 0 <= i < |s|
      ensures IdentChar(s[i])
    {
      if i < k {
        hide LICENSE_REF;
        PrefixMatchIsIdent(s[0..k], LICENSE_REF, i);
        assert s[i] == s[0..k][i];
      }
    }
  }

  /** An operand that binds looser than its place was written in parentheses. */
  lemma {:induction false} PrintsNoDeeper(c: Tree)
    requires Derivation(c)
    ensures PrintedNesting(Ast(c)) + (if c.Group? then 1 else 0) <= Nesting(c)
    ensures !c.Group? ==> Level(c) == Precedence(Ast(c))
  {
    match c
    case Leaf(_) =>
    case Group(_, body, _) =>
      PrintsNoDeeper(body);
    case WithTree(atom, _, _) =>
      PrintsNoDeeper(atom);
    case Chain(l, op, r) =>
      PrintsNoDeeper(l);
      PrintsNoDeeper(r);
  }

  /**
   * Whatever was read, if WITH is on plain licenses only, prints to a text that nests no deeper, is
   * read again, and from then on printing and reading change nothing.
   */
  lemma ReprintIsStable(e: string)
    requires Read(e).Ok? && WithPlain(Read(e).value)
    ensures var n := Read(e).value;
            && PrintedNesting(n) <= MaxOpen(Lex(e, 0).value)
            && Read(Print(n)) == Ok(Canonical(n))
            && Print(Canonical(n)) == Print(n)
            && Read(Print(Canonical(n))) == Ok(Canonical(n))
  {
    var ts := Lex(e, 0).value;
    var c := ReadDerivation(e);
    NestsAsWritten(c);
    ReadPrinted(Ast(c));
    CanonicalPrintsAlike(Ast(c));
  }

  lemma ReadDerivation(e: string) returns (c: Tree)
    requires Read(e).Ok?
    ensures Derivation(c) && Lex(e, 0) == Ok(Yield(c)) && Read(e) == Ok(Ast(c)) && LegalNames(Ast(c))
    ensures MaxOpen(Yield(c)) <= MAX_NESTING_DEPTH
  {
    hide Fits, NotCutShort;
    LexLossless(e, 0);
    c := ParsedDerivation(Lex(e, 0).value);
    LegalFromTokens(c);
  }

  lemma NestsAsWritten(c: Tree)
    requires Derivation(c)
    ensures PrintedNesting(Ast(c)) <= MaxOpen(Yield(c))
  {
    PrintsNoDeeper(c);
    DerivationParens(c);
    NestingIsMaxOpen(c);
  }

  // ----- counting parentheses: what cannot survive -----

  function Parens(ts: seq<Token>): nat {
    if ts == [] then 0 else (if ts[0].kind.LParen? then 1 else 0) + Parens(ts[1..])
  }

  lemma {:induction false} ParensConcat(a: seq<Token>, b: seq<Token>)
    ensures Parens(a + b) == Parens(a) + Parens(b)
  {
    if a == [] {
      assert a + b == b;
    } else {
      assert (a + b)[1..] == a[1..] + b;
      ParensConcat(a[1..], b);
    }
  }

  function Groups(c: Tree): nat {
    match c
    case Leaf(_) => 0
    case Group(_, body, _) => 1 + Groups(body)
    case WithTree(atom, _, _) => Groups(atom)
    case Chain(l, _, r) => Groups(l) + Groups(r)
  }

  lemma ParensChain(a: seq<Token>, op: Token, b: seq<Token>)
    requires !op.kind.LParen?
    ensures Parens(a + [op] + b) == Parens(a) + Parens(b)
  {
    assert Parens([op]) == 0;
    ParensConcat(a + [op], b);
    ParensConcat(a, [op]);
  }

  lemma {:induction false} GroupsAreParens(c: Tree)
    requires ParensInGroups(c)
    ensures Parens(Yield(c)) == Groups(c)
  {
    match c
    case Leaf(_) =>
    case Group(open, body, close) =>
      GroupsAreParens(body);
      ParensConcat([open] + Yield(body), [close]);
      ParensConcat([open], Yield(body));
    case WithTree(atom, op, exc) =>
      GroupsAreParens(atom);
      ParensChain(Yield(atom), op, [exc]);
      assert Parens([exc]) == 0;
    case Chain(l, op, r) =>
      GroupsAreParens(l);
      GroupsAreParens(r);
      ParensChain(Yield(l), op, Yield(r));
  }

  function Count(b: bool): nat {
    if b then 1 else 0
  }

  /** Parentheses the printer writes. */
  function Written(n: Node): nat {
    match n
    case Simple(_, _) => 0
    case With(l, _) => Written(l)
    case And(l, r) => Written(l) + Written(r) + Count(l.Or?) + Count(r.Or?)
    case Or(l, r) => Written(l) + Written(r)
  }

  /** Parentheses without which no text is read as n. */
  function Needed(n: Node): nat {
    match n
    case Simple(_, _) => 0
    case With(l, _) => Needed(l) + Count(!l.Simple?)
    case And(l, r) => Needed(l) + Needed(r) + Count(l.Or?) + Count(r.Or? || r.And?)
    case Or(l, r) => Needed(l) + Needed(r) + Count(r.Or?)
  }

  lemma {:induction false} DerivationHasNeeded(c: Tree)
    requires Derivation(c)
    ensures Groups(c) >= Needed(Ast(c)) + Count(c.Group?)
    ensures !c.Group? ==> Level(c) == Precedence(Ast(c))
  {
    match c
    case Leaf(_) =>
    case Group(_, body, _) =>
      DerivationHasNeeded(body);
    case WithTree(atom, _, _) =>
      DerivationHasNeeded(atom);
    case Chain(l, op, r) =>
      DerivationHasNeeded(l);
      DerivationHasNeeded(r);
  }

  lemma {:induction false} JoinGroups(l: Tree, op: Token, r: Tree)
    ensures Groups(Join(l, op, r)) == Groups(l) + Groups(r)
  {
    if r.Chain? && r.op.kind == op.kind {
      JoinGroups(l, op, r.left);
    }
  }

  lemma {:induction false} PrintedTreeGroups(n: Node, pos: nat)
    ensures Groups(PrintedTree(n, pos)) == Written(n)
    decreases n, 0
  {
    hide Print, WrapIfOr, KindOf, Join;
    match n
    case Simple(_, _) =>
    case With(l, _) =>
      PrintedTreeGroups(l, pos);
    case And(l, r) =>
      var end := pos + |WrapIfOr(l)|;
      PrintedTreeGroups(l, if l.Or? then pos + 1 else pos);
      PrintedTreeGroups(r, if r.Or? then end + 6 else end + 5);
      JoinGroups(WrappedTree(l, pos), Token(AndOp, "AND", end + 1), WrappedTree(r, end + 5));
    case Or(l, r) =>
      var end := pos + |Print(l)|;
      PrintedTreeGroups(l, pos);
      PrintedTreeGroups(r, end + 4);
      JoinGroups(PrintedTree(l, pos), Token(OrOp, "OR", end + 1), PrintedTree(r, end + 4));
  }

  lemma {:induction false} WrittenAtMostNeeded(n: Node)
    ensures Written(n) <= Needed(n)
    ensures Written(n) == Needed(n) ==> WithPlain(n) && LeftNested(n)
  {
    match n
    case Simple(_, _) =>
    case With(l, _) =>
      WrittenAtMostNeeded(l);
    case And(l, r) =>
      WrittenAtMostNeeded(l);
      WrittenAtMostNeeded(r);
    case Or(l, r) =>
      WrittenAtMostNeeded(l);
      WrittenAtMostNeeded(r);
  }

  /** Exactly these expressions are read back as they were printed. */
  lemma RoundTripsExactly(n: Node)
    ensures Read(Print(n)) == Ok(n) <==>
            LegalNames(n) && WithPlain(n) && LeftNested(n) && PrintedNesting(n) <= MAX_NESTING_DEPTH
  {
    if Read(Print(n)) == Ok(n) {
      var c := ReadDerivation(Print(n));
      PrintedTokens(n);
      PrintedTreeIsCanonical(n, 0);
      GroupsAreParens(PrintedTree(n, 0));
      DerivationParens(c);
      GroupsAreParens(c);
      PrintedTreeGroups(n, 0);
      DerivationHasNeeded(c);
      WrittenAtMostNeeded(n);
      NestsAsWritten(c);
    }
    if LegalNames(n) && WithPlain(n) && LeftNested(n) {
      ReadPrinted(n);
      CanonicalIsLeftNested(n);
    }
  }

  /** WITH on a parenthesized expression is accepted, but it is never read back once printed. */
  lemma CompoundWithIsLost(l: Node, exception: string)
    requires LegalNames(l) && WithPlain(l) && LegalException(exception) && !l.Simple?
    requires PrintedNesting(l) < MAX_NESTING_DEPTH
    ensures Read("(" + Print(l) + ")" + " WITH " + exception) == Ok(With(Canonical(l), exception))
    ensures Read(Print(With(Canonical(l), exception))) != Ok(With(Canonical(l), exception))
  {
    var a, sep := "(" + Print(l) + ")", " WITH ";
    var op := Token(WithOp, "WITH", |a| + 1);
    var c := WithTree(PrintedGroup(l), op, Token(KindOf(exception, false), exception, |a| + |sep|));
    GroupWithLexes(l, a, sep, op, exception);
    PrintedTreeDerives(l, 1);
    PrintedTreeIsCanonical(l, 1);
    KindOfIsLicense(exception, false);
    DerivationParens(c);
    NestingIsMaxOpen(c);
    ParseOfYield(c);
    CanonicalPrintsAlike(l);
    RoundTripsExactly(With(Canonical(l), exception));
  }

  function PrintedGroup(l: Node): Tree {
    Group(Token(LParen, "(", 0), PrintedTree(l, 1), Token(RParen, ")", |Print(l)| + 1))
  }

  lemma GroupIsRead(e: string, l: Node)
    requires LegalNames(l) && At(e, 0, "(" + Print(l) + ")")
    ensures |Print(l)| + 2 <= |e|
    ensures Lex(e, 0) == Prepend(Yield(PrintedGroup(l)), Lex(e, |Print(l)| + 2))
  {
    hide Lex, At, Boundary, PrintedTree, Print;
    GroupSplit(e, 0, Print(l));
    PrintedLexes(e, 1, l);
    GroupLexes(e, 0, Print(l), Yield(PrintedTree(l, 1)));
  }

  lemma GroupWithLexes(l: Node, a: string, sep: string, op: Token, exception: string)
    requires LegalNames(l) && LegalException(exception) && a == "(" + Print(l) + ")"
    requires Operator(sep, op.value, op.kind) && op.offset == |a| + 1
    ensures Lex(a + sep + exception, 0) ==
            Ok(Yield(WithTree(PrintedGroup(l), op, Token(KindOf(exception, false), exception, |a| + |sep|))))
  {
    hide Lex, At, LegalException, LegalNames, KindOf, Print, PrintedGroup, Yield, Operator;
    var e := a + sep + exception;
    WholeText(e);
    OperatorSplit(e, 0, a, sep, op.value, op.kind, exception);
    GroupIsRead(e, l);
    WithIsRead(e, a, Yield(PrintedGroup(l)), sep, op, exception);
    WithYields(WithTree(PrintedGroup(l), op, Token(KindOf(exception, false), exception, |a| + |sep|)));
  }

  lemma WithIsRead(e: string, a: string, ta: seq<Token>, sep: string, op: Token, exception: string)
    requires LegalException(exception) && At(e, 0, a + sep + exception) && |e| == |a + sep + exception|
    requires Operator(sep, op.value, op.kind) && op.offset == |a| + 1
    requires Lex(e, 0) == Prepend(ta, Lex(e, |a|))
    ensures Lex(e, 0) == Ok(ta + [op] + [Token(KindOf(exception, false), exception, |a| + |sep|)])
  {
    var exc := Token(KindOf(exception, false), exception, |a| + |sep|);
    ExceptionAtEnd(e, a + sep, exception);
    hide Lex, At, LegalException, KindOf, Operator;
    OperandsLex(e, 0, a, ta, sep, op, exception, [exc]);
    assert (ta + [op] + [exc]) + [] == ta + [op] + [exc];
    LexEnd(e);
  }

  lemma ExceptionAtEnd(e: string, before: string, exception: string)
    requires LegalException(exception) && At(e, 0, before + exception) && |e| == |before + exception|
    ensures Lex(e, |before|) == Prepend([Token(KindOf(exception, false), exception, |before|)], Lex(e, |e|))
  {
    hide Lex, LegalException, KindOf;
    AtSplit(e, 0, before, exception);
    ExceptionIsOneToken(e, |before|, exception);
  }

  lemma WithYields(c: Tree)
    requires c.WithTree?
    ensures Yield(c) == Yield(c.atom) + [c.op] + [c.exc]
  {
  }

  lemma WholeText(e: string)
    ensures At(e, 0, e) && Boundary(e, |e|)
  {
    assert e[0..|e|] == e;
  }

  lemma LexEnd(e: string)
    ensures Lex(e, |e|) == Ok([])
  {
  }

  /** "(A OR B) WITH e" prints as "A OR B WITH e", which accepts A without any exception. */
  lemma CompoundWithChangesMeaning(a: Node, b: Node, exception: string, accepted: Node -> bool)
    requires a.Simple? && b.Simple? && LegalNames(a) && LegalNames(b) && LegalException(exception)
    requires accepted(a) && !accepted(With(Or(a, b), exception))
    ensures var (wide, narrow) := (With(Or(a, b), exception), Or(a, With(b, exception)));
            && Read("(" + Print(Or(a, b)) + ")" + " WITH " + exception) == Ok(wide)
            && Read(Print(wide)) == Ok(narrow)
            && !Eval(wide, accepted) && Eval(narrow, accepted)
  {
    hide Read;
    var wide, narrow := With(Or(a, b), exception), Or(a, With(b, exception));
    CompoundWithIsLost(Or(a, b), exception);
    ReadPrinted(narrow);
    CanonicalIsLeftNested(narrow);
    assert Canonical(narrow) == narrow && PrintedNesting(narrow) == 0;
    assert Print(wide) == Print(narrow) by {
      assert Print(Or(a, b)) == Print(a) + " OR " + Print(b);
      assert Print(With(b, exception)) == Print(b) + " WITH " + exception;
      assert Print(a) + " OR " + Print(b) + " WITH " + exception
          == Print(a) + " OR " + (Print(b) + " WITH " + exception);
    }
  }
}
