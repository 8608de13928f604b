/** The SPDX tokenizer: a greedy lexer with three classes of identifier. */
module SpdxTokenizer {
  import opened Results
  import opened SpdxSyntax

  // ----- character classes and the two reference patterns -----

  predicate IdentChar(c: char) {
    'A' <= c <= 'Z' || 'a' <= c <= 'z' || '0' <= c <= '9' || c == '-' || c == '.'
  }

  function Upper(c: char): char {
    if 'a' <= c <= 'z' then (c as int - 32) as char else c
  }

  function UpperCase(s: string): (u: string)
    ensures |u| == |s|
  {
    if s == "" then "" else [Upper(s[0])] + UpperCase(s[1..])
  }

  /** End of the longest run of identifier characters from pos. */
  function RunEnd(e: string, pos: nat): (end: nat)
    requires pos <= |e|
    ensures pos <= end <= |e|
    ensures forall i :: pos <= i < end ==> IdentChar(e[i])
    ensures end < |e| ==> !IdentChar(e[end])
    decreases |e| - pos
  {
    if pos < |e| && IdentChar(e[pos]) then RunEnd(e, pos + 1) else pos
  }

  const LICENSE_REF := "LICENSEREF-"
  const DOCUMENT_REF := "DOCUMENTREF-"

  /** A prefix given in upper case, matched in any case, and then at least one identifier character, at pos. */
  function MatchPrefixed(e: string, pos: nat, prefix: string): (end: Option<nat>)
    requires pos <= |e|
    ensures end.Some? ==> pos + |prefix| < end.value <= |e|
    ensures end.Some? && end.value < |e| ==> !IdentChar(e[end.value])
  {
    var start := pos + |prefix|;
    if start <= |e| && UpperCase(e[pos..start]) == prefix && start < RunEnd(e, start)
    then Some(RunEnd(e, start))
    else None
  }

  function MatchLicenseRef(e: string, pos: nat): (end: Option<nat>)
    requires pos <= |e|
    ensures end.Some? ==> pos < end.value <= |e|
    ensures end.Some? && end.value < |e| ==> !IdentChar(e[end.value])
  {
    MatchPrefixed(e, pos, LICENSE_REF)
  }

  function MatchDocumentRef(e: string, pos: nat): (end: Option<nat>)
    requires pos <= |e|
    ensures end.Some? ==> pos < end.value <= |e|
    ensures end.Some? && end.value < |e| ==> !IdentChar(e[end.value])
  {
    match MatchPrefixed(e, pos, DOCUMENT_REF)
    case None => None
    case Some(colon) =>
      if colon < |e| && e[colon] == ':' then MatchLicenseRef(e, colon + 1) else None
  }

  // ----- spelling classes -----

  predicate IsIdent(s: string) {
    |s| > 0 && forall i :: 0 <= i < |s| ==> IdentChar(s[i])
  }

  predicate IsKeyword(s: string) {
    UpperCase(s) == "AND" || UpperCase(s) == "OR" || UpperCase(s) == "WITH"
  }

  predicate IsLicenseRef(s: string) {
    MatchLicenseRef(s, 0) == Some(|s|)
  }

  predicate IsDocumentRef(s: string) {
    MatchDocumentRef(s, 0) == Some(|s|)
  }

  /** The spellings each kind of token may have. */
  predicate Fits(t: Token) {
    match t.kind
    case LParen => t.value == "("
    case RParen => t.value == ")"
    case AndOp => UpperCase(t.value) == "AND"
    case OrOp => UpperCase(t.value) == "OR"
    case WithOp => UpperCase(t.value) == "WITH"
    case LicenseRef => IsLicenseRef(t.value)
    case DocumentRef => IsDocumentRef(t.value)
    case LicenseId => IsIdent(t.value) && !IsKeyword(t.value) && !IsLicenseRef(t.value)
    case OrLater => IsIdent(t.value) && !IsKeyword(t.value) && !IsLicenseRef(t.value)
  }

  // ----- one step of the lexer, and the whole run -----

  datatype Step = Skip | Emit(token: Token, next: nat) | Invalid

  function IdentifierStep(e: string, pos: nat): (s: Step)
    requires pos < |e| && IdentChar(e[pos])
  {
    var end := RunEnd(e, pos);
    var value := e[pos..end];
    if UpperCase(value) == "AND" then Emit(Token(AndOp, value, pos), end)
    else if UpperCase(value) == "OR" then Emit(Token(OrOp, value, pos), end)
    else if UpperCase(value) == "WITH" then Emit(Token(WithOp, value, pos), end)
    else if end < |e| && e[end] == '+' then Emit(Token(OrLater, value, pos), end + 1)
    else Emit(Token(LicenseId, value, pos), end)
  }

  function StepAt(e: string, pos: nat): (s: Step)
    requires pos < |e|
  {
    if e[pos] == ' ' || e[pos] == '\t' then Skip
    else if e[pos] == '(' then Emit(Token(LParen, "(", pos), pos + 1)
    else if e[pos] == ')' then Emit(Token(RParen, ")", pos), pos + 1)
    else if MatchDocumentRef(e, pos).Some? then
      var end := MatchDocumentRef(e, pos).value;
      Emit(Token(DocumentRef, e[pos..end], pos), end)
    else if MatchLicenseRef(e, pos).Some? then
      var end := MatchLicenseRef(e, pos).value;
      Emit(Token(LicenseRef, e[pos..end], pos), end)
    else if IdentChar(e[pos]) then IdentifierStep(e, pos)
    else Invalid
  }

  /** Tokens followed by the outcome of the rest; an error is the offset of the bad character. */
  function Prepend(ts: seq<Token>, rest: Result<seq<Token>, nat>): Result<seq<Token>, nat> {
    if rest.Ok? then Ok(ts + rest.value) else rest
  }

  /** The tokens of e from pos on. */
  function Lex(e: string, pos: nat): Result<seq<Token>, nat>
    requires pos <= |e|
    decreases |e| - pos
  {
    if pos == |e| then Ok([])
    else
      StepProgress(e, pos);
      match StepAt(e, pos)
      case Skip => Lex(e, pos + 1)
      case Emit(t, next) => Prepend([t], Lex(e, next))
      case Invalid => Err(pos)
  }

  lemma StepProgress(e: string, pos: nat)
    requires pos < |e|
    ensures StepAt(e, pos).Emit? ==> pos < StepAt(e, pos).next <= |e|
  {
  }

  // ----- the tokenizer itself -----

  class SPDXTokenizer {
    var tokens: seq<Token>

    constructor ()
      ensures tokens == []
    {
      tokens := [];
    }

    method TryDocumentRef(e: string, pos: nat) returns (newPos: Option<nat>)
      requires pos <= |e|
      modifies this
      ensures newPos == MatchDocumentRef(e, pos)
      ensures newPos.None? ==> tokens == old(tokens)
      ensures newPos.Some? ==> tokens == old(tokens) + [Token(DocumentRef, e[pos..newPos.value], pos)]
    {
      newPos := MatchDocumentRef(e, pos);
      if newPos.Some? {
        tokens := tokens + [Token(DocumentRef, e[pos..newPos.value], pos)];
      }
    }

    method TryLicenseRef(e: string, pos: nat) returns (newPos: Option<nat>)
      requires pos <= |e|
      modifies this
      ensures newPos == MatchLicenseRef(e, pos)
      ensures newPos.None? ==> tokens == old(tokens)
      ensures newPos.Some? ==> tokens == old(tokens) + [Token(LicenseRef, e[pos..newPos.value], pos)]
    {
      newPos := MatchLicenseRef(e, pos);
      if newPos.Some? {
        tokens := tokens + [Token(LicenseRef, e[pos..newPos.value], pos)];
      }
    }

    method ConsumeIdentifier(e: string, start: nat) returns (pos: nat)
      requires start < |e| && IdentChar(e[start])
      modifies this
      ensures IdentifierStep(e, start).Emit?
      ensures pos == IdentifierStep(e, start).next
      ensures tokens == old(tokens) + [IdentifierStep(e, start).token]
    {
      pos := start;
      while pos < |e| && IdentChar(e[pos])
        invariant start <= pos <= |e|
        invariant RunEnd(e, pos) == RunEnd(e, start)
      {
        pos := pos + 1;
      }
      var value := e[start..pos];
      if UpperCase(value) == "AND" {
        tokens := tokens + [Token(AndOp, value, start)];
      } else if UpperCase(value) == "OR" {
        tokens := tokens + [Token(OrOp, value, start)];
      } else if UpperCase(value) == "WITH" {
        tokens := tokens + [Token(WithOp, value, start)];
      } else if pos < |e| && e[pos] == '+' {
        tokens := tokens + [Token(OrLater, value, start)];
        pos := pos + 1;
      } else {
        tokens := tokens + [Token(LicenseId, value, start)];
      }
    }

    method Tokenize(e: string) returns (r: Result<seq<Token>, nat>)
      modifies this
      ensures r == Lex(e, 0)
    {
      hide Lex, Prepend, MatchDocumentRef, MatchLicenseRef, IdentifierStep;
      tokens := [];
      var pos := 0;
      PrependNone(Lex(e, 0));
      while pos < |e|
        invariant pos <= |e|
        invariant Prepend(tokens, Lex(e, pos)) == Lex(e, 0)
        decreases |e| - pos
      {
        ghost var before, from := tokens, pos;
        PrependTwice(before, e, from);
        if e[pos] == ' ' || e[pos] == '\t' {
          pos := pos + 1;
        } else if e[pos] == '(' {
          tokens := tokens + [Token(LParen, "(", pos)];
          pos := pos + 1;
        } else if e[pos] == ')' {
          tokens := tokens + [Token(RParen, ")", pos)];
          pos := pos + 1;
        } else {
          var newPos := TryDocumentRef(e, pos);
          if newPos.None? {
            newPos := TryLicenseRef(e, pos);
          }
          if newPos.Some? {
            pos := newPos.value;
          } else if IdentChar(e[pos]) {
            pos := ConsumeIdentifier(e, pos);
          } else {
            return Err(pos);
          }
        }
      }
      r := Ok(tokens);
      LexEnds(e, tokens);
    }
  }

  lemma PrependNone(rest: Result<seq<Token>, nat>)
    ensures Prepend([], rest) == rest
  {
    assert rest.Ok? ==> [] + rest.value == rest.value;
  }

  lemma LexEnds(e: string, ts: seq<Token>)
    ensures Prepend(ts, Lex(e, |e|)) == Ok(ts)
  {
    assert ts + [] == ts;
  }

  /** Unfolding one step of the lexer behind tokens already collected. */
  lemma PrependTwice(ts: seq<Token>, e: string, pos: nat)
    requires pos < |e|
    ensures match StepAt(e, pos)
            case Skip => Prepend(ts, Lex(e, pos)) == Prepend(ts, Lex(e, pos + 1))
            case Emit(t, next) =>
              pos < next <= |e| && Prepend(ts, Lex(e, pos)) == Prepend(ts + [t], Lex(e, next))
            case Invalid => Prepend(ts, Lex(e, pos)) == Err(pos)
  {
    StepProgress(e, pos);
    if StepAt(e, pos).Emit? {
      var t, next := StepAt(e, pos).token, StepAt(e, pos).next;
      if Lex(e, next).Ok? {
        assert ts + ([t] + Lex(e, next).value) == (ts + [t]) + Lex(e, next).value;
      }
    }
  }
}
