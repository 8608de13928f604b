/**
 * The tokens of an expression told from its characters: an independent definition of what the
 * tokenizer must find, and what a change of letter case in the operators does.
 */
module SpdxWords {
  import opened Results
  import opened SpdxSyntax
  import opened SpdxTokenizer
  import opened SpdxLexing

  // ----- tokens by their characters -----

  ghost predicate NameChar(c: char) {
    || 'a' <= c <= 'z' || 'A' <= c <= 'Z' || '0' <= c <= '9'
    || c == '-' || c == '.'
  }

  /** At pos stands a word given in two spellings, each character in either of them. */
  ghost predicate Spells(e: string, pos: nat, upper: string, lower: string)
    requires |upper| == |lower|
  {
    pos + |upper| <= |e| && forall i :: 0 <= i < |upper| ==> e[pos + i] == upper[i] || e[pos + i] == lower[i]
  }

  /** A longest run of name characters from pos to end. */
  ghost predicate NameAt(e: string, pos: nat, end: nat) {
    && pos < end <= |e| && (forall i :: pos <= i < end ==> NameChar(e[i]))
    && (end < |e| ==> !NameChar(e[end]))
  }

  /** "LicenseRef-" and a name. */
  ghost predicate LicenseRefAt(e: string, pos: nat, end: nat) {
    Spells(e, pos, "LICENSEREF-", "licenseref-") && NameAt(e, pos + 11, end)
  }

  /** "DocumentRef-" and a name, to the end of that name. */
  ghost predicate DocumentNameAt(e: string, pos: nat, end: nat) {
    Spells(e, pos, "DOCUMENTREF-", "documentref-") && NameAt(e, pos + 12, end)
  }

  /** A document name, a colon, and a license reference. */
  ghost predicate DocumentRefAt(e: string, pos: nat, end: nat) {
    exists colon: nat ::
      DocumentNameAt(e, pos, colon) && colon < |e| && e[colon] == ':' && LicenseRefAt(e, colon + 1, end)
  }

  ghost predicate IsWord(s: string, upper: string, lower: string)
    requires |upper| == |lower|
  {
    |s| == |upper| && Spells(s, 0, upper, lower)
  }

  /** The kind of a name that is no reference, and how far it reaches when a "+" may follow. */
  ghost predicate WordIs(e: string, end: nat, value: string, kind: TokenType, next: nat) {
    if IsWord(value, "AND", "and") then kind == AndOp && next == end
    else if IsWord(value, "OR", "or") then kind == OrOp && next == end
    else if IsWord(value, "WITH", "with") then kind == WithOp && next == end
    else if end < |e| && e[end] == '+' then kind == OrLater && next == end + 1
    else kind == LicenseId && next == end
  }

  ghost predicate NoReferenceAt(e: string, pos: nat) {
    forall end: nat :: !LicenseRefAt(e, pos, end) && !DocumentRefAt(e, pos, end)
  }

  /** At pos stands the token t, and the text goes on at next. */
  ghost predicate TokenAt(e: string, pos: nat, t: Token, next: nat) {
    && pos < next <= |e| && t.offset == pos
    && match t.kind
       case LParen => e[pos] == '(' && t.value == "(" && next == pos + 1
       case RParen => e[pos] == ')' && t.value == ")" && next == pos + 1
       case LicenseRef => LicenseRefAt(e, pos, next) && t.value == e[pos..next]
       case DocumentRef => DocumentRefAt(e, pos, next) && t.value == e[pos..next]
       case _ =>
         && NoReferenceAt(e, pos) && NameAt(e, pos, pos + |t.value|) && t.value == e[pos..pos + |t.value|]
         && WordIs(e, pos + |t.value|, t.value, t.kind, next)
  }

  ghost predicate BlankBetween(e: string, from: nat, to: nat) {
    from <= to <= |e| && forall k :: from <= k < to ==> e[k] == ' ' || e[k] == '\t'
  }

  /** From pos on the text consists of these tokens and blanks. */
  ghost predicate Tokens(e: string, pos: nat, ts: seq<Token>)
    decreases |ts|
  {
    if ts == [] then BlankBetween(e, pos, |e|)
    else
      && BlankBetween(e, pos, ts[0].offset)
      && exists next: nat :: TokenAt(e, ts[0].offset, ts[0], next) && Tokens(e, next, ts[1..])
  }

  // ----- letters -----

  lemma NameCharIs(c: char)
    ensures NameChar(c) <==> IdentChar(c)
  {
  }

  lemma {:induction false} UpperCaseLength(s: string)
    ensures forall i :: 0 <= i < |s| ==> UpperCase(s)[i] == Upper(s[i])
  {
    forall i | 0 <= i < |s| ensures UpperCase(s)[i] == Upper(s[i]) { UpperCaseAt(s, i); }
  }

  /** Upper and lower spellings of the same letters. */
  ghost predicate Spellings(upper: string, lower: string) {
    |upper| == |lower| && forall i :: 0 <= i < |upper| ==> forall c: char :: Upper(c) == upper[i] <==> c == upper[i] || c == lower[i]
  }

  lemma UpperCaseSpells(s: string, upper: string, lower: string)
    requires Spellings(upper, lower)
    ensures UpperCase(s) == upper <==> IsWord(s, upper, lower)
  {
    UpperCaseLength(s);
    hide UpperCase, Upper;
  }

  lemma LicenseRefSpellings()
    ensures Spellings("LICENSEREF-", "licenseref-") && LICENSE_REF == "LICENSEREF-"
  {
  }

  lemma DocumentRefSpellings()
    ensures Spellings("DOCUMENTREF-", "documentref-") && DOCUMENT_REF == "DOCUMENTREF-"
  {
  }

  lemma OperatorSpellings()
    ensures Spellings("AND", "and") && Spellings("OR", "or") && Spellings("WITH", "with")
  {
  }

  lemma SpellsSlice(e: string, pos: nat, upper: string, lower: string)
    requires |upper| == |lower| && Spellings(upper, lower) && pos + |upper| <= |e|
    ensures UpperCase(e[pos..pos + |upper|]) == upper <==> Spells(e, pos, upper, lower)
  {
    hide UpperCase, Spellings;
    var s := e[pos..pos + |upper|];
    UpperCaseSpells(s, upper, lower);
    assert forall i :: 0 <= i < |upper| ==> s[i] == e[pos + i];
  }

  lemma NameEnds(e: string, pos: nat, end: nat)
    requires pos <= |e|
    ensures NameAt(e, pos, end) <==> pos < end == RunEnd(e, pos)
  {
    forall c: char ensures NameChar(c) <==> IdentChar(c) { NameCharIs(c); }
    hide NameChar, IdentChar;
    if NameAt(e, pos, end) {
      RunEndIs(e, pos, end);
    }
  }

  lemma PrefixedIs(e: string, pos: nat, upper: string, lower: string, end: nat)
    requires |upper| == |lower| && Spellings(upper, lower) && pos <= |e|
    ensures MatchPrefixed(e, pos, upper) == Some(end) <==> Spells(e, pos, upper, lower) && NameAt(e, pos + |upper|, end)
  {
    hide UpperCase, Spellings, Spells, NameAt;
    if pos + |upper| <= |e| {
      SpellsSlice(e, pos, upper, lower);
      NameEnds(e, pos + |upper|, end);
    } else {
      SpellsWithin(e, pos, upper, lower);
    }
  }

  lemma SpellsWithin(e: string, pos: nat, upper: string, lower: string)
    requires |upper| == |lower|
    ensures Spells(e, pos, upper, lower) ==> pos + |upper| <= |e|
  {
  }

  /** A license reference is matched exactly where its characters stand. */
  lemma LicenseRefIs(e: string, pos: nat, end: nat)
    requires pos <= |e|
    ensures MatchLicenseRef(e, pos) == Some(end) <==> LicenseRefAt(e, pos, end)
  {
    LicenseRefSpellings();
    hide LICENSE_REF, MatchPrefixed, Spellings, Spells, NameAt;
    PrefixedIs(e, pos, "LICENSEREF-", "licenseref-", end);
  }

  lemma DocumentNameIs(e: string, pos: nat, end: nat)
    requires pos <= |e|
    ensures MatchPrefixed(e, pos, DOCUMENT_REF) == Some(end) <==> DocumentNameAt(e, pos, end)
  {
    DocumentRefSpellings();
    hide DOCUMENT_REF, MatchPrefixed, Spellings, Spells, NameAt;
    PrefixedIs(e, pos, "DOCUMENTREF-", "documentref-", end);
  }

  /** A document reference is matched exactly where its characters stand. */
  lemma DocumentRefIs(e: string, pos: nat, end: nat)
    requires pos <= |e|
    ensures MatchDocumentRef(e, pos) == Some(end) <==> DocumentRefAt(e, pos, end)
  {
    hide DOCUMENT_REF, MatchPrefixed, MatchLicenseRef, LicenseRefAt, DocumentNameAt;
    forall colon: nat
      ensures MatchPrefixed(e, pos, DOCUMENT_REF) == Some(colon) <==> DocumentNameAt(e, pos, colon)
    {
      DocumentNameIs(e, pos, colon);
    }
    var colon := MatchPrefixed(e, pos, DOCUMENT_REF);
    if colon.Some? && colon.value < |e| {
      LicenseRefIs(e, colon.value + 1, end);
    }
  }

  lemma NoReferenceIs(e: string, pos: nat)
    requires pos <= |e|
    ensures NoReferenceAt(e, pos) <==> MatchLicenseRef(e, pos).None? && MatchDocumentRef(e, pos).None?
  {
    hide MatchLicenseRef, MatchDocumentRef, LicenseRefAt, DocumentRefAt;
    forall end: nat
      ensures MatchLicenseRef(e, pos) == Some(end) <==> LicenseRefAt(e, pos, end)
      ensures MatchDocumentRef(e, pos) == Some(end) <==> DocumentRefAt(e, pos, end)
    {
      LicenseRefIs(e, pos, end);
      DocumentRefIs(e, pos, end);
    }
  }

  lemma WordStepIs(e: string, pos: nat, t: Token, next: nat)
    requires pos < |e| && IdentChar(e[pos])
    ensures IdentifierStep(e, pos) == Emit(t, next) <==>
            && t.offset == pos && NameAt(e, pos, pos + |t.value|) && t.value == e[pos..pos + |t.value|]
            && WordIs(e, pos + |t.value|, t.value, t.kind, next)
  {
    OperatorSpellings();
    hide UpperCase, Spellings, NameAt, IsWord;
    var end := RunEnd(e, pos);
    var value := e[pos..end];
    NameEnds(e, pos, pos + |t.value|);
    NameEnds(e, pos, end);
    UpperCaseSpells(value, "AND", "and");
    UpperCaseSpells(value, "OR", "or");
    UpperCaseSpells(value, "WITH", "with");
  }

  lemma NameStarts(e: string, pos: nat, end: nat)
    requires NameAt(e, pos, end)
    ensures pos < |e| && NameChar(e[pos])
  {
  }

  lemma ReferenceStarts(e: string, pos: nat, end: nat)
    ensures LicenseRefAt(e, pos, end) ==> pos < |e| && (e[pos] == 'L' || e[pos] == 'l')
    ensures DocumentRefAt(e, pos, end) ==> pos < |e| && (e[pos] == 'D' || e[pos] == 'd')
  {
    hide NameAt, LicenseRefAt;
    LicenseRefStarts(e, pos, end);
    assert "DOCUMENTREF-"[0] == 'D' && "documentref-"[0] == 'd';
  }

  lemma LicenseRefStarts(e: string, pos: nat, end: nat)
    ensures LicenseRefAt(e, pos, end) ==> pos < |e| && (e[pos] == 'L' || e[pos] == 'l')
  {
    hide NameAt;
    assert "LICENSEREF-"[0] == 'L' && "licenseref-"[0] == 'l';
  }

  /** A step emits exactly the token that stands there. */
  lemma StepIs(e: string, pos: nat, t: Token, next: nat)
    requires pos < |e|
    ensures StepAt(e, pos) == Emit(t, next) <==> TokenAt(e, pos, t, next)
  {
    hide MatchLicenseRef, MatchDocumentRef, LicenseRefAt, DocumentRefAt, NoReferenceAt, IdentifierStep, WordIs, NameAt;
    hide IdentChar;
    StepProgress(e, pos);
    LicenseRefIs(e, pos, next);
    DocumentRefIs(e, pos, next);
    NoReferenceIs(e, pos);
    ReferenceStarts(e, pos, next);
    if NameAt(e, pos, pos + |t.value|) {
      NameStarts(e, pos, pos + |t.value|);
    }
    NameCharIs(e[pos]);
    if IdentChar(e[pos]) {
      WordStepIs(e, pos, t, next);
      if IdentifierStep(e, pos) == Emit(t, next) {
        WordKind(e, pos, t, next);
      }
    }
    if MatchDocumentRef(e, pos).Some? {
      DocumentRefIs(e, pos, MatchDocumentRef(e, pos).value);
      ReferenceStarts(e, pos, MatchDocumentRef(e, pos).value);
    }
  }

  lemma WordKind(e: string, pos: nat, t: Token, next: nat)
    requires pos < |e| && IdentChar(e[pos]) && IdentifierStep(e, pos) == Emit(t, next)
    ensures !t.kind.LParen? && !t.kind.RParen? && !t.kind.LicenseRef? && !t.kind.DocumentRef?
  {
    hide UpperCase;
  }

  lemma StepIsSkip(e: string, pos: nat)
    requires pos < |e|
    ensures StepAt(e, pos).Skip? <==> e[pos] == ' ' || e[pos] == '\t'
  {
    hide MatchLicenseRef, MatchDocumentRef, UpperCase, RunEnd;
  }

  /** Tokenizing gives exactly the tokens the text consists of. */
  lemma {:induction false} LexIs(e: string, pos: nat, ts: seq<Token>)
    requires pos <= |e|
    ensures Lex(e, pos) == Ok(ts) <==> Tokens(e, pos, ts)
    decreases |e| - pos
  {
    hide StepAt, TokenAt, Prepend;
    if pos == |e| {
      TokensAtEnd(e, ts);
    } else {
      StepProgress(e, pos);
      StepIsSkip(e, pos);
      if ts != [] {
        StepIs(e, pos, ts[0], 0);
      }
      match StepAt(e, pos)
      case Skip =>
        LexIs(e, pos + 1, ts);
        SkipsBlank(e, pos, ts);
      case Invalid =>
        NoToken(e, pos, ts);
      case Emit(t, next) =>
        StepIs(e, pos, t, next);
        if ts != [] {
          LexIs(e, next, ts[1..]);
        }
        OneToken(e, pos, t, next, ts);
        PrependOne(t, Lex(e, next), ts);
    }
  }

  lemma PrependOne(t: Token, rest: Result<seq<Token>, nat>, ts: seq<Token>)
    ensures Prepend([t], rest) == Ok(ts) <==> ts != [] && ts[0] == t && rest == Ok(ts[1..])
  {
    if rest.Ok? {
      assert ([t] + rest.value)[1..] == rest.value;
    }
    if ts != [] {
      assert [ts[0]] + ts[1..] == ts;
    }
  }

  lemma TokensAtEnd(e: string, ts: seq<Token>)
    ensures Tokens(e, |e|, ts) <==> ts == []
  {
    hide NameAt, LicenseRefAt, DocumentRefAt, NoReferenceAt, WordIs;
  }

  lemma SkipsBlank(e: string, pos: nat, ts: seq<Token>)
    requires pos < |e| && (e[pos] == ' ' || e[pos] == '\t')
    ensures Tokens(e, pos, ts) <==> Tokens(e, pos + 1, ts)
  {
    if ts != [] && ts[0].offset == pos {
      StepIsSkip(e, pos);
      forall next: nat
        ensures !TokenAt(e, pos, ts[0], next)
      {
        StepIs(e, pos, ts[0], next);
      }
    }
    hide TokenAt, StepAt;
  }

  lemma NoToken(e: string, pos: nat, ts: seq<Token>)
    requires pos < |e| && StepAt(e, pos).Invalid?
    ensures !Tokens(e, pos, ts)
  {
    StepIsSkip(e, pos);
    if ts != [] && ts[0].offset == pos {
      forall next: nat
        ensures !TokenAt(e, pos, ts[0], next)
      {
        StepIs(e, pos, ts[0], next);
      }
    }
    hide TokenAt, StepAt;
  }

  lemma OneToken(e: string, pos: nat, t: Token, next: nat, ts: seq<Token>)
    requires pos < |e| && StepAt(e, pos) == Emit(t, next)
    ensures Tokens(e, pos, ts) <==> ts != [] && ts[0] == t && Tokens(e, next, ts[1..])
  {
    StepIsSkip(e, pos);
    StepIs(e, pos, t, next);
    if ts != [] && ts[0].offset == pos {
      forall n: nat
        ensures TokenAt(e, pos, ts[0], n) <==> ts[0] == t && n == next
      {
        StepIs(e, pos, ts[0], n);
      }
    }
    assert TokenAt(e, pos, t, next) && t.offset == pos;
    hide TokenAt, StepAt;
  }
}
