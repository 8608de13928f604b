/** Letter case: tokens are found in any spelling, and that of the operators does not matter at all. */
module SpdxLetterCase {
  import opened Results
  import opened Letters
  import opened SpdxSyntax
  import opened SpdxTokenizer
  import opened SpdxLexing
  import opened SpdxParser
  import opened SpdxRoundTrip
  import opened SpdxWords

  /** The tokens with their values as another text of the same length spells them. */
  function Respelled(ts: seq<Token>, f: string): (us: seq<Token>)
    ensures |us| == |ts|
  {
    seq(|ts|, i requires 0 <= i < |ts| => RespelledOne(ts[i], f))
  }

  function RespelledOne(t: Token, f: string): Token {
    if t.offset + |t.value| <= |f| then t.(value := f[t.offset..t.offset + |t.value|]) else t
  }

  lemma SameLetterFacts(c: char, d: char)
    requires SameLetter(c, d)
    ensures NameChar(c) == NameChar(d) && Upper(c) == Upper(d)
    ensures c == '(' || c == ')' || c == ' ' || c == '\t' || c == '+' || c == ':' ==> c == d
    ensures SameLetter(d, c)
  {
  }

  lemma SameLettersBack(e: string, f: string)
    requires SameLetters(e, f)
    ensures SameLetters(f, e)
  {
    forall k | 0 <= k < |e| ensures SameLetter(f[k], e[k]) { SameLetterFacts(e[k], f[k]); }
  }

  lemma SpellsAlike(e: string, f: string, pos: nat, upper: string, lower: string)
    requires SameLetters(e, f) && |upper| == |lower| && Spellings(upper, lower)
    ensures Spells(e, pos, upper, lower) ==> Spells(f, pos, upper, lower)
  {
    if Spells(e, pos, upper, lower) {
      forall i | 0 <= i < |upper|
        ensures f[pos + i] == upper[i] || f[pos + i] == lower[i]
      {
        SameLetterFacts(e[pos + i], f[pos + i]);
        assert Upper(e[pos + i]) == upper[i];
      }
    }
  }

  lemma NameAlike(e: string, f: string, pos: nat, end: nat)
    requires SameLetters(e, f)
    ensures NameAt(e, pos, end) ==> NameAt(f, pos, end)
  {
    forall k | 0 <= k < |e| ensures NameChar(e[k]) == NameChar(f[k]) { SameLetterFacts(e[k], f[k]); }
    hide NameChar, SameLetter;
  }

  lemma LicenseRefAlike(e: string, f: string, pos: nat, end: nat)
    requires SameLetters(e, f)
    ensures LicenseRefAt(e, pos, end) ==> LicenseRefAt(f, pos, end)
  {
    LicenseRefSpellings();
    hide Spellings, Spells, NameAt, SameLetters;
    SpellsAlike(e, f, pos, "LICENSEREF-", "licenseref-");
    NameAlike(e, f, pos + 11, end);
  }

  lemma DocumentRefAlike(e: string, f: string, pos: nat, end: nat)
    requires SameLetters(e, f)
    ensures DocumentRefAt(e, pos, end) ==> DocumentRefAt(f, pos, end)
  {
    DocumentRefSpellings();
    hide Spellings, Spells, NameAt, LicenseRefAt;
    if DocumentRefAt(e, pos, end) {
      var colon: nat :|
        DocumentNameAt(e, pos, colon) && colon < |e| && e[colon] == ':' && LicenseRefAt(e, colon + 1, end);
      SameLetterFacts(e[colon], f[colon]);
      hide SameLetters;
      SpellsAlike(e, f, pos, "DOCUMENTREF-", "documentref-");
      NameAlike(e, f, pos + 12, colon);
      LicenseRefAlike(e, f, colon + 1, end);
      assert DocumentNameAt(f, pos, colon);
    }
  }

  lemma NoReferenceAlike(e: string, f: string, pos: nat)
    requires SameLetters(e, f)
    ensures NoReferenceAt(e, pos) ==> NoReferenceAt(f, pos)
  {
    SameLettersBack(e, f);
    hide SameLetters, LicenseRefAt, DocumentRefAt;
    if NoReferenceAt(e, pos) {
      forall end: nat
        ensures !LicenseRefAt(f, pos, end) && !DocumentRefAt(f, pos, end)
      {
        LicenseRefAlike(f, e, pos, end);
        DocumentRefAlike(f, e, pos, end);
      }
    }
  }

  lemma IsWordAlike(v: string, w: string, upper: string, lower: string)
    requires SameLetters(v, w) && |upper| == |lower| && Spellings(upper, lower)
    ensures IsWord(v, upper, lower) <==> IsWord(w, upper, lower)
  {
    SameLettersBack(v, w);
    SpellsAlike(v, w, 0, upper, lower);
    SpellsAlike(w, v, 0, upper, lower);
    hide Spells, Spellings;
  }

  lemma WordIsAlike(e: string, f: string, end: nat, v: string, w: string, kind: TokenType, next: nat)
    requires SameLetters(e, f) && SameLetters(v, w)
    ensures WordIs(e, end, v, kind, next) ==> WordIs(f, end, w, kind, next)
  {
    OperatorSpellings();
    hide Spellings, IsWord;
    IsWordAlike(v, w, "AND", "and");
    IsWordAlike(v, w, "OR", "or");
    IsWordAlike(v, w, "WITH", "with");
    if end < |e| {
      SameLetterFacts(e[end], f[end]);
      SameLetterFacts(f[end], e[end]);
    }
  }

  lemma TokenAlike(e: string, f: string, pos: nat, t: Token, next: nat)
    requires SameLetters(e, f) && TokenAt(e, pos, t, next)
    ensures TokenAt(f, pos, RespelledOne(t, f), next)
  {
    hide LicenseRefAt, DocumentRefAt, NoReferenceAt, NameAt, WordIs;
    LicenseRefAlike(e, f, pos, next);
    DocumentRefAlike(e, f, pos, next);
    NoReferenceAlike(e, f, pos);
    NameAlike(e, f, pos, pos + |t.value|);
    SameLetterFacts(e[pos], f[pos]);
    NameWithin(e, pos, pos + |t.value|);
    if t.kind.LParen? || t.kind.RParen? {
      assert f[pos..pos + 1] == [f[pos]];
    } else if pos + |t.value| <= |e| {
      var v, w := t.value, f[pos..pos + |t.value|];
      assert v == e[pos..pos + |v|];
      WordIsAlike(e, f, pos + |v|, v, w, t.kind, next);
    }
  }

  lemma NameWithin(e: string, pos: nat, end: nat)
    ensures NameAt(e, pos, end) ==> end <= |e|
  {
  }

  lemma BlankAlike(e: string, f: string, from: nat, to: nat)
    requires SameLetters(e, f) && BlankBetween(e, from, to)
    ensures BlankBetween(f, from, to)
  {
    forall k | from <= k < to ensures f[k] == e[k] { SameLetterFacts(e[k], f[k]); }
  }

  lemma {:induction false} TokensAlike(e: string, f: string, pos: nat, ts: seq<Token>)
    requires SameLetters(e, f) && Tokens(e, pos, ts)
    ensures Tokens(f, pos, Respelled(ts, f))
    decreases |ts|
  {
    hide TokenAt, BlankBetween, RespelledOne;
    if ts == [] {
      BlankAlike(e, f, pos, |e|);
    } else {
      var next: nat :| TokenAt(e, ts[0].offset, ts[0], next) && Tokens(e, next, ts[1..]);
      BlankAlike(e, f, pos, ts[0].offset);
      TokenAlike(e, f, ts[0].offset, ts[0], next);
      TokensAlike(e, f, next, ts[1..]);
      assert Respelled(ts, f)[1..] == Respelled(ts[1..], f);
      RespelledKeeps(ts[0], f);
    }
  }

  lemma RespelledKeeps(t: Token, f: string)
    ensures RespelledOne(t, f).kind == t.kind && RespelledOne(t, f).offset == t.offset
    ensures |RespelledOne(t, f).value| == |t.value|
  {
  }

  /** A change of letter case anywhere leaves the tokens where they are and of the kind they were. */
  lemma LexIgnoresCase(e: string, f: string)
    requires SameLetters(e, f) && Lex(e, 0).Ok?
    ensures Lex(f, 0) == Ok(Respelled(Lex(e, 0).value, f))
  {
    hide Lex, Tokens, SameLetters, Respelled;
    LexIs(e, 0, Lex(e, 0).value);
    TokensAlike(e, f, 0, Lex(e, 0).value);
    LexIs(f, 0, Respelled(Lex(e, 0).value, f));
  }

  // ----- what the parser does not look at -----

  predicate IsOperator(kind: TokenType) {
    kind.AndOp? || kind.OrOp? || kind.WithOp?
  }

  /** The same kinds, and the same values but for operators. */
  predicate Alike(ts: seq<Token>, us: seq<Token>) {
    && |ts| == |us|
    && forall i :: 0 <= i < |ts| ==> ts[i].kind == us[i].kind && (!IsOperator(ts[i].kind) ==> ts[i].value == us[i].value)
  }

  lemma {:induction false} AtomAlike(ts: seq<Token>, us: seq<Token>, pos: nat, depth: nat)
    requires Alike(ts, us) && pos <= |ts|
    ensures ParseAtom(ts, pos, depth) == ParseAtom(us, pos, depth)
    decreases |ts| - pos, 0
  {
    if pos < |ts| {
      OrAlike(ts, us, pos + 1, depth + 1);
      hide ParseOr;
    }
  }

  lemma {:induction false} WithAlike(ts: seq<Token>, us: seq<Token>, pos: nat, depth: nat)
    requires Alike(ts, us) && pos <= |ts|
    ensures ParseWith(ts, pos, depth) == ParseWith(us, pos, depth)
    decreases |ts| - pos, 1
  {
    AtomAlike(ts, us, pos, depth);
    hide ParseAtom;
  }

  lemma {:induction false} AndLevelAlike(ts: seq<Token>, us: seq<Token>, pos: nat, depth: nat)
    requires Alike(ts, us) && pos <= |ts|
    ensures ParseAnd(ts, pos, depth) == ParseAnd(us, pos, depth)
    decreases |ts| - pos, 2
  {
    WithAlike(ts, us, pos, depth);
    hide ParseWith, AndLoop, Alike;
    if ParseWith(ts, pos, depth).Ok? {
      var left := ParseWith(ts, pos, depth).value;
      AndLoopAlike(ts, us, left.node, left.next, depth);
    }
  }

  lemma {:induction false} AndLoopAlike(ts: seq<Token>, us: seq<Token>, left: Node, pos: nat, depth: nat)
    requires Alike(ts, us) && pos <= |ts|
    ensures AndLoop(ts, left, pos, depth) == AndLoop(us, left, pos, depth)
    decreases |ts| - pos, 4
  {
    hide ParseWith;
    if pos + 1 < |ts| {
      WithAlike(ts, us, pos + 1, depth);
      if ParseWith(ts, pos + 1, depth).Ok? {
        var right := ParseWith(ts, pos + 1, depth).value;
        AndLoopAlike(ts, us, And(left, right.node), right.next, depth);
      }
    }
  }

  lemma {:induction false} OrAlike(ts: seq<Token>, us: seq<Token>, pos: nat, depth: nat)
    requires Alike(ts, us) && pos <= |ts|
    ensures ParseOr(ts, pos, depth) == ParseOr(us, pos, depth)
    decreases |ts| - pos, 3
  {
    AndLevelAlike(ts, us, pos, depth);
    hide ParseAnd, OrLoop, Alike;
    if ParseAnd(ts, pos, depth).Ok? {
      var left := ParseAnd(ts, pos, depth).value;
      OrLoopAlike(ts, us, left.node, left.next, depth);
    }
  }

  lemma {:induction false} OrLoopAlike(ts: seq<Token>, us: seq<Token>, left: Node, pos: nat, depth: nat)
    requires Alike(ts, us) && pos <= |ts|
    ensures OrLoop(ts, left, pos, depth) == OrLoop(us, left, pos, depth)
    decreases |ts| - pos, 4
  {
    hide ParseAnd;
    if pos + 1 < |ts| {
      AndLevelAlike(ts, us, pos + 1, depth);
      if ParseAnd(ts, pos + 1, depth).Ok? {
        var right := ParseAnd(ts, pos + 1, depth).value;
        OrLoopAlike(ts, us, Or(left, right.node), right.next, depth);
      }
    }
  }

  lemma ParseAlike(ts: seq<Token>, us: seq<Token>)
    requires Alike(ts, us)
    ensures Parse(ts) == Parse(us)
  {
    OrAlike(ts, us, 0, 0);
    hide ParseOr;
  }

  // ----- operators in any case -----

  /** Position k lies in an operator. */
  ghost predicate InOperator(ts: seq<Token>, k: nat) {
    exists i :: 0 <= i < |ts| && IsOperator(ts[i].kind) && ts[i].offset <= k < ts[i].offset + |ts[i].value|
  }

  lemma LicensesStayAlike(e: string, f: string, ts: seq<Token>)
    requires |f| == |e| && Lossless(e, ts, 0)
    requires forall k :: 0 <= k < |e| && e[k] != f[k] ==> InOperator(ts, k)
    ensures Alike(ts, Respelled(ts, f))
  {
    hide Fits, Lossless, InOperator, RespelledOne;
    forall i | 0 <= i < |ts|
      ensures Respelled(ts, f)[i].kind == ts[i].kind
      ensures !IsOperator(ts[i].kind) ==> Respelled(ts, f)[i].value == ts[i].value
    {
      RespelledKeeps(ts[i], f);
      if !IsOperator(ts[i].kind) {
        LicenseStays(e, f, ts, i);
      }
    }
  }

  lemma LicenseStays(e: string, f: string, ts: seq<Token>, i: nat)
    requires |f| == |e| && Lossless(e, ts, 0) && i < |ts| && !IsOperator(ts[i].kind)
    requires forall k :: 0 <= k < |e| && e[k] != f[k] ==> InOperator(ts, k)
    ensures RespelledOne(ts[i], f).value == ts[i].value
  {
    var t := ts[i];
    hide Fits, Lossless, InOrder, IsOperator, Respelled;
    TokenLies(e, ts, i);
    forall k | t.offset <= k < t.offset + |t.value|
      ensures e[k] == f[k]
    {
      if e[k] != f[k] {
        var j :| 0 <= j < |ts| && IsOperator(ts[j].kind) && ts[j].offset <= k < ts[j].offset + |ts[j].value|;
        Apart(ts, i, j, k);
      }
    }
    SameSlice(e, f, t.offset, t.offset + |t.value|);
  }

  lemma SameSlice(e: string, f: string, i: nat, j: nat)
    requires i <= j <= |e| == |f| && forall k :: i <= k < j ==> e[k] == f[k]
    ensures e[i..j] == f[i..j]
  {
  }

  lemma TokenLies(e: string, ts: seq<Token>, i: nat)
    requires Lossless(e, ts, 0) && i < |ts|
    ensures var t := ts[i]; t.offset + |t.value| <= |e| && e[t.offset..t.offset + |t.value|] == t.value
    ensures InOrder(ts)
  {
    hide Fits, InOrder;
    assert NotCutShort(e, ts[i]);
  }

  lemma Apart(ts: seq<Token>, i: nat, j: nat, k: nat)
    requires InOrder(ts) && i < |ts| && j < |ts|
    requires ts[i].offset <= k < ts[i].offset + |ts[i].value| && ts[j].offset <= k < ts[j].offset + |ts[j].value|
    ensures i == j
  {
    hide InOrder;
    if i < j {
      OneBefore(ts, i, j);
    } else if j < i {
      OneBefore(ts, j, i);
    }
  }

  lemma OneBefore(ts: seq<Token>, i: nat, j: nat)
    requires InOrder(ts) && i < j < |ts|
    ensures ts[i].offset + |ts[i].value| <= ts[j].offset
  {
  }

  /** Operators may be written in any case: it does not change what a text is read as, or how it fails. */
  lemma OperatorCaseIsIgnored(e: string, f: string)
    requires SameLetters(e, f) && Lex(e, 0).Ok?
    requires forall k :: 0 <= k < |e| && e[k] != f[k] ==> InOperator(Lex(e, 0).value, k)
    ensures Read(f) == Read(e)
  {
    var ts := Lex(e, 0).value;
    LexIgnoresCase(e, f);
    LexLossless(e, 0);
    LicensesStayAlike(e, f, ts);
    ParseAlike(ts, Respelled(ts, f));
    hide Lex, Parse;
  }
}
