/** Printing an expression and reading it back. */
module SpdxRoundTrip {
  import opened Results
  import opened SpdxSyntax
  import opened SpdxTokenizer
  import opened SpdxLexing
  import opened SpdxParser
  import opened SpdxGrammar
  import opened SpdxAcceptance
  import opened SpdxPrinter

  datatype ReadError = BadCharacter(offset: nat) | BadSyntax(error: ParseError)

  function Read(e: string): Result<Node, ReadError> {
    match Lex(e, 0)
    case Err(offset) => Err(BadCharacter(offset))
    case Ok(ts) =>
      match Parse(ts)
      case Err(error) => Err(BadSyntax(error))
      case Ok(n) => Ok(n)
  }

  // ----- which names the tokenizer reads back as they are -----

  predicate LegalLicense(identifier: string, orLater: bool) {
    if orLater then IsIdent(identifier) && !IsKeyword(identifier) && !IsLicenseRef(identifier)
    else (IsIdent(identifier) && !IsKeyword(identifier)) || IsDocumentRef(identifier)
  }

  predicate LegalException(exception: string) {
    IsIdent(exception) && !IsKeyword(exception)
  }

  predicate LegalNames(n: Node) {
    match n
    case Simple(identifier, orLater) => LegalLicense(identifier, orLater)
    case With(l, exception) => LegalNames(l) && LegalException(exception)
    case And(l, r) => LegalNames(l) && LegalNames(r)
    case Or(l, r) => LegalNames(l) && LegalNames(r)
  }

  /** Token kinds are not kept in the syntax tree; this recovers them from the spelling. */
  function KindOf(identifier: string, orLater: bool): TokenType {
    if orLater then OrLater
    else if IsDocumentRef(identifier) then DocumentRef
    else if IsLicenseRef(identifier) then LicenseRef
    else LicenseId
  }

  lemma DocumentRefStarts(s: string)
    requires IsDocumentRef(s)
    ensures |s| > 0 && IdentChar(s[0])
  {
    hide LICENSE_REF;
    var k := |DOCUMENT_REF|;
    assert k > 0;
    hide DOCUMENT_REF;
    PrefixMatchIsIdent(s[0..k], DOCUMENT_REF, 0);
    assert s[0] == s[0..k][0];
  }

  lemma WordIsOneToken(e: string, pos: nat, word: string)
    requires IsIdent(word) && At(e, pos, word)
    requires pos + |word| < |e| ==> !IdentChar(e[pos + |word|]) && e[pos + |word|] != ':'
    ensures MatchDocumentRef(e, pos).None?
    ensures IsLicenseRef(word) ==> MatchLicenseRef(e, pos) == Some(pos + |word|)
    ensures !IsLicenseRef(word) ==> MatchLicenseRef(e, pos).None?
    ensures RunEnd(e, pos) == pos + |word|
  {
    IdentMatches(word);
    hide MatchPrefixed;
    DocumentRefShift(e, pos, word);
    MatchPrefixedShift(e, pos, word, 0, LICENSE_REF);
    RunEndShift(e, pos, word, 0);
    RunEndIs(word, 0, |word|);
  }

  lemma LegalNameStarts(identifier: string, orLater: bool)
    requires LegalLicense(identifier, orLater)
    ensures |identifier| > 0 && IdentChar(identifier[0])
  {
    if IsDocumentRef(identifier) {
      DocumentRefStarts(identifier);
    }
  }

  lemma WordStep(e: string, pos: nat, word: string, plus: bool)
    requires IsIdent(word) && !IsKeyword(word) && At(e, pos, word)
    requires plus ==> !IsLicenseRef(word) && pos + |word| < |e| && e[pos + |word|] == '+'
    requires !plus ==> Boundary(e, pos + |word|)
    ensures pos < |e|
    ensures StepAt(e, pos) == Emit(Token(KindOf(word, plus), word, pos), pos + |word| + if plus then 1 else 0)
  {
    IdentMatches(word);
    assert e[pos] == word[0];
    WordIsOneToken(e, pos, word);
    hide MatchLicenseRef, MatchDocumentRef, RunEnd, UpperCase;
  }

  lemma NameStep(e: string, pos: nat, identifier: string, orLater: bool)
    requires LegalLicense(identifier, orLater) && At(e, pos, identifier)
    requires if orLater then pos + |identifier| < |e| && e[pos + |identifier|] == '+'
             else Boundary(e, pos + |identifier|)
    ensures pos < |e|
    ensures StepAt(e, pos) == Emit(Token(KindOf(identifier, orLater), identifier, pos),
                                   pos + |identifier| + if orLater then 1 else 0)
  {
    LegalNameStarts(identifier, orLater);
    assert e[pos] == identifier[0];
    hide MatchLicenseRef, MatchDocumentRef, RunEnd, UpperCase, IdentChar;
    if IsDocumentRef(identifier) {
      IdentIsNoDocumentRef(identifier);
      DocumentRefShift(e, pos, identifier);
    } else {
      WordStep(e, pos, identifier, orLater);
    }
  }

  lemma IdentIsNoDocumentRef(s: string)
    requires IsDocumentRef(s)
    ensures !IsIdent(s)
  {
  }

  /** A legal license followed by a blank, ")" or the end is read as one token. */
  lemma NameIsOneToken(e: string, pos: nat, identifier: string, orLater: bool)
    requires LegalLicense(identifier, orLater)
    requires At(e, pos, Print(Simple(identifier, orLater)))
    requires Boundary(e, pos + |Print(Simple(identifier, orLater))|)
    ensures Lex(e, pos) == Prepend([Token(KindOf(identifier, orLater), identifier, pos)],
                                   Lex(e, pos + |Print(Simple(identifier, orLater))|))
  {
    hide StepAt, LegalLicense, KindOf;
    var text := Print(Simple(identifier, orLater));
    assert At(e, pos, identifier) by {
      assert e[pos..pos + |identifier|] == text[..|identifier|];
    }
    if orLater {
      assert e[pos + |identifier|] == text[|identifier|];
    }
    NameStep(e, pos, identifier, orLater);
  }

  // ----- splitting a text into the parts it is printed from -----

  lemma AtSplit(e: string, pos: nat, a: string, b: string)
    requires At(e, pos, a + b)
    ensures At(e, pos, a) && At(e, pos + |a|, b)
  {
    var whole := e[pos..pos + |a + b|];
    assert whole[..|a|] == a && whole[|a|..] == b;
  }

  lemma LexSkips(e: string, pos: nat)
    requires pos < |e| && e[pos] == ' '
    ensures Lex(e, pos) == Lex(e, pos + 1)
  {
  }

  lemma LexEmits(e: string, pos: nat)
    requires pos < |e| && StepAt(e, pos).Emit?
    ensures pos < StepAt(e, pos).next <= |e|
    ensures Lex(e, pos) == Prepend([StepAt(e, pos).token], Lex(e, StepAt(e, pos).next))
  {
    StepProgress(e, pos);
  }

  lemma PrependAgain(a: seq<Token>, b: seq<Token>, rest: Result<seq<Token>, nat>)
    ensures Prepend(a, Prepend(b, rest)) == Prepend(a + b, rest)
  {
    if rest.Ok? {
      assert a + (b + rest.value) == a + b + rest.value;
    }
  }

  predicate Operator(sep: string, word: string, kind: TokenType) {
    || (sep == " AND " && word == "AND" && kind == AndOp)
    || (sep == " OR " && word == "OR" && kind == OrOp)
    || (sep == " WITH " && word == "WITH" && kind == WithOp)
  }

  lemma OperatorHasBlanks(sep: string, word: string, kind: TokenType)
    requires Operator(sep, word, kind)
    ensures |sep| == |word| + 2 && sep == " " + word + " "
  {
  }

  lemma AtWithin(e: string, pos: nat, s: string)
    requires At(e, pos, s)
    ensures pos + |s| <= |e|
  {
  }

  lemma AtFirst(e: string, pos: nat, s: string)
    requires At(e, pos, s) && s != ""
    ensures pos < |e| && e[pos] == s[0]
  {
  }

  /** " AND ", " OR " and " WITH " are read as one operator token. */
  lemma OperatorIsOneToken(e: string, pos: nat, sep: string, word: string, kind: TokenType)
    requires Operator(sep, word, kind) && At(e, pos, sep)
    ensures Boundary(e, pos) && |sep| == |word| + 2
    ensures Lex(e, pos) == Prepend([Token(kind, word, pos + 1)], Lex(e, pos + |sep|))
  {
    hide At, Operator, Lex;
    var end, blank := pos + |sep|, " ";
    OperatorHasBlanks(sep, word, kind);
    AtSplit(e, pos, blank + word, blank);
    AtSplit(e, pos, blank, word);
    AtFirst(e, pos, blank);
    AtFirst(e, end - 1, blank);
    OperatorStep(e, pos + 1, sep, word, kind);
    LexSkips(e, pos);
    LexEmits(e, pos + 1);
    LexSkips(e, end - 1);
  }

  lemma OperatorWord(sep: string, word: string, kind: TokenType)
    requires Operator(sep, word, kind)
    ensures IsIdent(word) && !IsLicenseRef(word) && UpperCase(word) == word && IdentChar(word[0])
  {
    assert UpperCase("AND") == "AND" && UpperCase("OR") == "OR" && UpperCase("WITH") == "WITH";
  }

  lemma OperatorStep(e: string, pos: nat, sep: string, word: string, kind: TokenType)
    requires Operator(sep, word, kind)
    requires At(e, pos, word) && pos + |word| < |e| && e[pos + |word|] == ' '
    ensures StepAt(e, pos) == Emit(Token(kind, word, pos), pos + |word|)
  {
    hide UpperCase, IsLicenseRef, IsIdent, MatchLicenseRef, MatchDocumentRef, RunEnd;
    OperatorWord(sep, word, kind);
    AtFirst(e, pos, word);
    WordIsOneToken(e, pos, word);
  }

  // ----- the concrete syntax of a printed expression -----

  /** Append a chain to an operand, keeping the chain left-nested. */
  function Join(l: Tree, op: Token, r: Tree): Tree {
    if r.Chain? && r.op.kind == op.kind then Chain(Join(l, op, r.left), r.op, r.right) else Chain(l, op, r)
  }

  /** The tokens of the printed form of n at pos, arranged as the grammar reads them. */
  function PrintedTree(n: Node, pos: nat): Tree
    decreases n, 0
  {
    match n
    case Simple(identifier, orLater) => Leaf(Token(KindOf(identifier, orLater), identifier, pos))
    case With(l, exception) =>
      var end := pos + |Print(l)|;
      WithTree(PrintedTree(l, pos), Token(WithOp, "WITH", end + 1),
               Token(KindOf(exception, false), exception, end + 6))
    case And(l, r) =>
      var end := pos + |WrapIfOr(l)|;
      Join(WrappedTree(l, pos), Token(AndOp, "AND", end + 1), WrappedTree(r, end + 5))
    case Or(l, r) =>
      var end := pos + |Print(l)|;
      Join(PrintedTree(l, pos), Token(OrOp, "OR", end + 1), PrintedTree(r, end + 4))
  }

  function WrappedTree(n: Node, pos: nat): Tree
    decreases n, 1
  {
    if n.Or? then
      Group(Token(LParen, "(", pos), PrintedTree(n, pos + 1), Token(RParen, ")", pos + 1 + |Print(n)|))
    else PrintedTree(n, pos)
  }

  lemma {:induction false} JoinYields(l: Tree, op: Token, r: Tree)
    ensures Yield(Join(l, op, r)) == Yield(l) + [op] + Yield(r)
    ensures ParensInGroups(l) && Delta(op) == 0 && ParensInGroups(r) ==> ParensInGroups(Join(l, op, r))
    ensures Nesting(Join(l, op, r)) == Max(Nesting(l), Nesting(r))
  {
    if r.Chain? && r.op.kind == op.kind {
      JoinYields(l, op, r.left);
      assert Yield(l) + [op] + Yield(r.left) + [r.op] + Yield(r.right)
          == Yield(l) + [op] + (Yield(r.left) + [r.op] + Yield(r.right));
    }
  }

  // ----- reading the printed text gives those tokens -----

  lemma {:induction false} PrintedLexes(e: string, pos: nat, n: Node)
    requires LegalNames(n) && At(e, pos, Print(n)) && Boundary(e, pos + |Print(n)|)
    ensures Lex(e, pos) == Prepend(Yield(PrintedTree(n, pos)), Lex(e, pos + |Print(n)|))
    decreases n, 0
  {
    hide Lex, Boundary, LegalLicense, LegalException, KindOf, At, Join;
    match n
    case Simple(identifier, orLater) =>
      NameIsOneToken(e, pos, identifier, orLater);
    case With(l, exception) =>
      var end := pos + |Print(l)|;
      OperatorSplit(e, pos, Print(l), " WITH ", "WITH", WithOp, exception);
      PrintedLexes(e, pos, l);
      ExceptionIsOneToken(e, end + 6, exception);
      OperandsLex(e, pos, Print(l), Yield(PrintedTree(l, pos)), " WITH ", Token(WithOp, "WITH", end + 1),
                  exception, [Token(KindOf(exception, false), exception, end + 6)]);
    case And(l, r) =>
      var end := pos + |WrapIfOr(l)|;
      var (op, tl, tr) := (Token(AndOp, "AND", end + 1), WrappedTree(l, pos), WrappedTree(r, end + 5));
      OperatorSplit(e, pos, WrapIfOr(l), " AND ", "AND", AndOp, WrapIfOr(r));
      WrappedLexes(e, pos, l);
      WrappedLexes(e, end + 5, r);
      JoinYields(tl, op, tr);
      OperandsLex(e, pos, WrapIfOr(l), Yield(tl), " AND ", op, WrapIfOr(r), Yield(tr));
    case Or(l, r) =>
      var end := pos + |Print(l)|;
      var (op, tl, tr) := (Token(OrOp, "OR", end + 1), PrintedTree(l, pos), PrintedTree(r, end + 4));
      OperatorSplit(e, pos, Print(l), " OR ", "OR", OrOp, Print(r));
      PrintedLexes(e, pos, l);
      PrintedLexes(e, end + 4, r);
      JoinYields(tl, op, tr);
      OperandsLex(e, pos, Print(l), Yield(tl), " OR ", op, Print(r), Yield(tr));
  }

  /** A text "a OP b" is read as the tokens of a, the operator and the tokens of b. */
  lemma OperandsLex(e: string, pos: nat, a: string, ta: seq<Token>, sep: string, op: Token,
                    b: string, tb: seq<Token>)
    requires Operator(sep, op.value, op.kind) && op.offset == pos + |a| + 1
    requires At(e, pos, a + sep + b)
    requires Lex(e, pos) == Prepend(ta, Lex(e, pos + |a|))
    requires Lex(e, pos + |a| + |sep|) == Prepend(tb, Lex(e, pos + |a + sep + b|))
    ensures Lex(e, pos) == Prepend(ta + [op] + tb, Lex(e, pos + |a + sep + b|))
  {
    hide *;
    var end := pos + |a + sep + b|;
    AtWithin(e, pos, a + sep + b);
    OperatorSplit(e, pos, a, sep, op.value, op.kind, b);
    PrependThrice(ta, [op], tb, Lex(e, end));
  }

  lemma ExceptionIsOneToken(e: string, pos: nat, exception: string)
    requires LegalException(exception) && At(e, pos, exception) && Boundary(e, pos + |exception|)
    ensures Lex(e, pos) == Prepend([Token(KindOf(exception, false), exception, pos)], Lex(e, pos + |exception|))
  {
    assert Print(Simple(exception, false)) == exception;
    hide Lex, At, Boundary, LegalException, LegalLicense, KindOf, Print;
    ExceptionIsLegal(exception);
    NameIsOneToken(e, pos, exception, false);
  }

  lemma {:induction false} WrappedLexes(e: string, pos: nat, n: Node)
    requires LegalNames(n) && At(e, pos, WrapIfOr(n)) && Boundary(e, pos + |WrapIfOr(n)|)
    ensures Lex(e, pos) == Prepend(Yield(WrappedTree(n, pos)), Lex(e, pos + |WrapIfOr(n)|))
    decreases n, 1
  {
    hide Lex, LegalNames, Boundary, At, Print, PrintedTree, Prepend;
    if n.Or? {
      GroupSplit(e, pos, Print(n));
      PrintedLexes(e, pos + 1, n);
      GroupLexes(e, pos, Print(n), Yield(PrintedTree(n, pos + 1)));
    } else {
      PrintedLexes(e, pos, n);
    }
  }

  lemma GroupSplit(e: string, pos: nat, text: string)
    requires At(e, pos, "(" + text + ")")
    ensures At(e, pos + 1, text) && pos + 1 + |text| < |e|
    ensures e[pos] == '(' && e[pos + 1 + |text|] == ')' && Boundary(e, pos + 1 + |text|)
  {
    AtSplit(e, pos, "(" + text, ")");
    AtSplit(e, pos, "(", text);
    assert e[pos] == "("[0] && e[pos + 1 + |text|] == ")"[0];
  }

  lemma GroupLexes(e: string, pos: nat, text: string, ts: seq<Token>)
    requires At(e, pos, "(" + text + ")")
    requires Lex(e, pos + 1) == Prepend(ts, Lex(e, pos + 1 + |text|))
    ensures Lex(e, pos) ==
            Prepend([Token(LParen, "(", pos)] + ts + [Token(RParen, ")", pos + 1 + |text|)],
                    Lex(e, pos + |"(" + text + ")"|))
  {
    hide Lex, At;
    var close := pos + 1 + |text|;
    GroupSplit(e, pos, text);
    ParenIsOneToken(e, pos);
    ParenIsOneToken(e, close);
    PrependThrice([Token(LParen, "(", pos)], ts, [Token(RParen, ")", close)], Lex(e, close + 1));
  }

  lemma ExceptionIsLegal(exception: string)
    requires LegalException(exception)
    ensures LegalLicense(exception, false)
  {
  }

  lemma ParenIsOneToken(e: string, pos: nat)
    requires pos < |e|
    ensures e[pos] == '(' ==> Lex(e, pos) == Prepend([Token(LParen, "(", pos)], Lex(e, pos + 1))
    ensures e[pos] == ')' ==> Lex(e, pos) == Prepend([Token(RParen, ")", pos)], Lex(e, pos + 1))
  {
  }

  /** A text "a WORD b": where the parts lie, and what reading the operator gives. */
  lemma OperatorSplit(e: string, pos: nat, a: string, sep: string, word: string, kind: TokenType, b: string)
    requires Operator(sep, word, kind) && At(e, pos, a + sep + b)
    ensures At(e, pos, a) && Boundary(e, pos + |a|) && At(e, pos + |a| + |sep|, b)
    ensures Lex(e, pos + |a|) == Prepend([Token(kind, word, pos + |a| + 1)], Lex(e, pos + |a| + |sep|))
  {
    hide At, Lex, Operator, Prepend, Boundary;
    assert |a + sep| == |a| + |sep|;
    AtSplit(e, pos, a + sep, b);
    AtSplit(e, pos, a, sep);
    OperatorIsOneToken(e, pos + |a|, sep, word, kind);
  }

  lemma PrependThrice(a: seq<Token>, b: seq<Token>, c: seq<Token>, rest: Result<seq<Token>, nat>)
    ensures Prepend(a, Prepend(b, Prepend(c, rest))) == Prepend(a + b + c, rest)
  {
    PrependAgain(b, c, rest);
    PrependAgain(a, b + c, rest);
    assert a + (b + c) == a + b + c;
  }
}
