/** What tokenizing keeps of the expression text. */
module SpdxLexing {
  import opened Results
  import opened SpdxSyntax
  import opened SpdxTokenizer

  // ----- matching in a slice and matching in the whole text -----

  /** A token that ends at pos is not cut short there: the text ends, or a blank or ')' follows. */
  predicate Boundary(e: string, pos: nat) {
    pos == |e| || (pos < |e| && (e[pos] == ' ' || e[pos] == ')'))
  }

  predicate At(e: string, pos: nat, s: string) {
    pos + |s| <= |e| && e[pos..pos + |s|] == s
  }

  lemma RunEndIs(e: string, pos: nat, end: nat)
    requires pos <= end <= |e|
    requires forall i :: pos <= i < end ==> IdentChar(e[i])
    requires end < |e| ==> !IdentChar(e[end])
    ensures RunEnd(e, pos) == end
  {
  }

  lemma RunEndShift(e: string, pos: nat, s: string, k: nat)
    requires At(e, pos, s) && k <= |s|
    requires pos + |s| < |e| ==> !IdentChar(e[pos + |s|])
    ensures RunEnd(e, pos + k) == pos + RunEnd(s, k)
  {
    var end := RunEnd(s, k);
    assert forall i :: pos <= i < pos + |s| ==> e[i] == s[i - pos];
    RunEndIs(e, pos + k, pos + end);
  }

  lemma {:induction false} UpperCaseAt(s: string, i: nat)
    requires i < |s|
    ensures UpperCase(s)[i] == Upper(s[i])
  {
    if i > 0 {
      UpperCaseAt(s[1..], i - 1);
    }
  }

  /** Both reference prefixes consist of identifier characters. */
  lemma PrefixIsIdent(i: nat)
    ensures i < |LICENSE_REF| ==> IdentChar(LICENSE_REF[i])
    ensures i < |DOCUMENT_REF| ==> IdentChar(DOCUMENT_REF[i])
  {
  }

  lemma PrefixMatchIsIdent(s: string, prefix: string, i: nat)
    requires prefix == LICENSE_REF || prefix == DOCUMENT_REF
    requires UpperCase(s) == prefix && i < |s|
    ensures IdentChar(s[i])
  {
    hide LICENSE_REF, DOCUMENT_REF;
    UpperCaseAt(s, i);
    PrefixIsIdent(i);
  }

  lemma SliceWithin(e: string, pos: nat, s: string, j: nat, k: nat)
    requires At(e, pos, s) && j <= k <= |s|
    ensures e[pos + j..pos + k] == s[j..k]
  {
    assert forall i :: pos <= i < pos + |s| ==> e[i] == s[i - pos];
  }

  lemma MatchPrefixedShift(e: string, pos: nat, s: string, k: nat, prefix: string)
    requires At(e, pos, s) && k <= |s|
    requires pos + |s| < |e| ==> !IdentChar(e[pos + |s|])
    requires prefix == LICENSE_REF || prefix == DOCUMENT_REF
    ensures MatchPrefixed(e, pos + k, prefix) ==
            Shifted(MatchPrefixed(s, k, prefix), pos)
  {
    hide LICENSE_REF, DOCUMENT_REF, UpperCase;
    var start := k + |prefix|;
    if start <= |s| {
      SliceWithin(e, pos, s, k, start);
      RunEndShift(e, pos, s, start);
    } else if pos + start <= |e| {
      assert e[pos + k..pos + start][|s| - k] == e[pos + |s|];
      if UpperCase(e[pos + k..pos + start]) == prefix {
        PrefixMatchIsIdent(e[pos + k..pos + start], prefix, |s| - k);
        assert false;
      }
    }
  }

  function Shifted(end: Option<nat>, base: nat): Option<nat> {
    match end
    case None => None
    case Some(n) => Some(base + n)
  }

  lemma DocumentRefShift(e: string, pos: nat, s: string)
    requires At(e, pos, s)
    requires pos + |s| < |e| ==> !IdentChar(e[pos + |s|]) && e[pos + |s|] != ':'
    ensures MatchDocumentRef(e, pos) == Shifted(MatchDocumentRef(s, 0), pos)
  {
    hide MatchPrefixed;
    MatchPrefixedShift(e, pos, s, 0, DOCUMENT_REF);
    match MatchPrefixed(s, 0, DOCUMENT_REF)
    case None =>
    case Some(colon) =>
      if colon < |s| {
        assert e[pos + colon] == s[colon];
        MatchPrefixedShift(e, pos, s, colon + 1, LICENSE_REF);
      }
  }

  /** A word of identifier characters can only match a reference pattern as a whole. */
  lemma IdentMatches(s: string)
    requires IsIdent(s)
    ensures MatchDocumentRef(s, 0).None?
    ensures MatchLicenseRef(s, 0).Some? ==> IsLicenseRef(s)
  {
  }

  // ----- one step: the token is a well spelled slice, as long as it can be -----

  /** Characters that a token stands for; an OR_LATER token also swallows its "+". */
  function Width(t: Token): nat {
    |t.value| + if t.kind.OrLater? then 1 else 0
  }

  predicate NotCutShort(e: string, t: Token) {
    && At(e, t.offset, t.value)
    && (t.kind.LParen? || t.kind.RParen?
        || t.offset + |t.value| == |e| || !IdentChar(e[t.offset + |t.value|]))
    && (t.kind.LicenseId? && t.offset + |t.value| < |e| ==> e[t.offset + |t.value|] != '+')
    && (t.kind.OrLater? ==> t.offset + |t.value| < |e| && e[t.offset + |t.value|] == '+')
  }

  lemma MatchedIsWhole(e: string, pos: nat, end: nat)
    requires pos <= |e|
    ensures MatchLicenseRef(e, pos) == Some(end) ==>
              end <= |e| && IsLicenseRef(e[pos..end]) && (end < |e| ==> !IdentChar(e[end]))
    ensures MatchDocumentRef(e, pos) == Some(end) ==>
              end <= |e| && IsDocumentRef(e[pos..end]) && (end < |e| ==> !IdentChar(e[end]))
  {
    hide MatchPrefixed;
    if MatchLicenseRef(e, pos) == Some(end) {
      MatchPrefixedShift(e, pos, e[pos..end], 0, LICENSE_REF);
    }
    if MatchDocumentRef(e, pos) == Some(end) {
      var s := e[pos..end];
      var colon := MatchPrefixed(e, pos, DOCUMENT_REF).value;
      MatchPrefixedShift(e, pos, s, 0, DOCUMENT_REF);
      assert s[colon - pos] == ':';
      MatchPrefixedShift(e, pos, s, colon - pos + 1, LICENSE_REF);
    }
  }

  /** What a step that emits a token must get right. */
  predicate EmitsWell(e: string, pos: nat, t: Token, next: nat) {
    t.offset == pos && |t.value| > 0 && next == pos + Width(t) && Fits(t) && NotCutShort(e, t)
  }

  lemma IdentifierStepFits(e: string, pos: nat)
    requires pos < |e| && IdentChar(e[pos]) && MatchLicenseRef(e, pos).None?
    ensures var s := IdentifierStep(e, pos); s.Emit? && EmitsWell(e, pos, s.token, s.next)
  {
    var s := IdentifierStep(e, pos);
    var value := e[pos..RunEnd(e, pos)];
    assert s.token.value == value && s.token.offset == pos;
    assert !IsLicenseRef(value) by {
      hide MatchPrefixed;
      MatchPrefixedShift(e, pos, value, 0, LICENSE_REF);
    }
    hide MatchLicenseRef, MatchDocumentRef, IsLicenseRef;
  }

  lemma StepFits(e: string, pos: nat)
    requires pos < |e|
    ensures match StepAt(e, pos)
            case Skip => e[pos] == ' ' || e[pos] == '\t'
            case Emit(t, next) => EmitsWell(e, pos, t, next)
            case Invalid => !IdentChar(e[pos]) && e[pos] !in " \t()"
  {
    hide MatchLicenseRef, MatchDocumentRef, IdentifierStep;
    if IdentChar(e[pos]) && MatchLicenseRef(e, pos).None? {
      IdentifierStepFits(e, pos);
    }
    if StepAt(e, pos).Emit? {
      MatchedIsWhole(e, pos, StepAt(e, pos).next);
    }
  }

  // ----- losslessness over the whole text -----

  /** Position k is a blank, lies inside token t, or is the "+" directly after an OR_LATER token. */
  predicate Accounts(e: string, t: Token, k: nat) {
    || t.offset <= k < t.offset + |t.value|
    || (t.kind.OrLater? && k == t.offset + |t.value| && k < |e| && e[k] == '+')
  }

  predicate InOrder(ts: seq<Token>) {
    forall i, j :: 0 <= i < j < |ts| ==> ts[i].offset + Width(ts[i]) <= ts[j].offset
  }

  /**
   * Tokens are slices of the text at their offsets, in order and without overlap; they are spelled
   * as their kind asks and as long as possible; nothing else but blanks and the "+" of an OR_LATER
   * token stands in the text.
   */
  ghost predicate Lossless(e: string, ts: seq<Token>, from: nat) {
    && (forall i :: 0 <= i < |ts| ==> from <= ts[i].offset && Fits(ts[i]) && NotCutShort(e, ts[i]))
    && (forall i :: 0 <= i < |ts| ==> |ts[i].value| > 0)
    && InOrder(ts)
    && forall k :: from <= k < |e| ==>
         e[k] == ' ' || e[k] == '\t' || exists i :: 0 <= i < |ts| && Accounts(e, ts[i], k)
  }

  /** Tokenizing loses nothing, and it stops only at a character that no token can start with. */
  lemma {:induction false} LexLossless(e: string, pos: nat)
    requires pos <= |e|
    ensures match Lex(e, pos)
            case Ok(ts) => Lossless(e, ts, pos)
            case Err(off) => pos <= off < |e| && !IdentChar(e[off]) && e[off] !in " \t()"
    decreases |e| - pos
  {
    hide Fits, StepAt;
    if pos < |e| {
      StepFits(e, pos);
      StepProgress(e, pos);
      match StepAt(e, pos)
      case Skip =>
        LexLossless(e, pos + 1);
      case Invalid =>
      case Emit(t, next) =>
        LexLossless(e, next);
        if Lex(e, next).Ok? {
          LosslessCons(e, pos, t, Lex(e, next).value);
        }
    }
  }

  lemma LosslessCons(e: string, pos: nat, t: Token, rest: seq<Token>)
    requires t.offset == pos && |t.value| > 0 && Fits(t) && NotCutShort(e, t)
    requires Lossless(e, rest, pos + Width(t))
    ensures Lossless(e, [t] + rest, pos)
  {
    hide Fits;
    var ts := [t] + rest;
    forall k | pos <= k < |e|
      ensures e[k] == ' ' || e[k] == '\t' || exists i :: 0 <= i < |ts| && Accounts(e, ts[i], k)
    {
      if k < pos + Width(t) {
        assert Accounts(e, ts[0], k);
      } else if !(e[k] == ' ' || e[k] == '\t') {
        var i :| 0 <= i < |rest| && Accounts(e, rest[i], k);
        assert ts[i + 1] == rest[i];
      }
    }
  }
}
