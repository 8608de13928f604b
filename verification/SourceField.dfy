/** The Source field of a binary package: a name, and a version in parentheses if it is not the binary's. */
module SourceField {
  import opened Results
  import opened Lines
  import opened LineLaws

  // ----- the pattern for a name with a version -----

  /** A parenthesis that opens a version ending at the end of the value. */
  predicate Opens(value: string, p: int) {
    0 <= p && p + 2 < |value| && value[p] == '(' && ')' !in value[p + 1..|value| - 1]
  }

  function FirstOpening(value: string, from: nat): (p: nat)
    requires from <= |value|
    ensures from <= p <= |value| && (p < |value| ==> Opens(value, p))
    ensures forall k :: from <= k < p ==> !Opens(value, k)
    decreases |value| - from
  {
    if from == |value| || Opens(value, from) then from else FirstOpening(value, from + 1)
  }

  /** The two groups of the pattern on a value without outer blanks. */
  function MatchSource(value: string): Option<(string, string)> {
    if value == "" || value[|value| - 1] != ')' then None
    else
      var p := FirstOpening(value, 1);
      if p == |value| || !OneLine(StripRight(value[..p])) then None
      else Some((StripRight(value[..p]), value[p + 1..|value| - 1]))
  }

  /** A way to read a value as a name, blanks and a version in parentheses. */
  ghost predicate Splits(value: string, name: string, version: string) {
    && name != "" && OneLine(name) && version != "" && ')' !in version
    && exists blanks :: Blank(blanks) && value == name + blanks + "(" + version + ")"
  }

  lemma {:induction false} StripRightOfBlanks(s: string, blanks: string)
    requires Blank(blanks)
    ensures StripRight(s + blanks) == StripRight(s)
  {
    if blanks == "" {
      assert s + blanks == s;
    } else {
      var n := |blanks| - 1;
      StripRightOfBlanks(s, blanks[..n]);
      assert (s + blanks)[..|s + blanks| - 1] == s + blanks[..n];
      assert IsSpace((s + blanks)[|s + blanks| - 1]);
      hide Blank;
    }
  }

  lemma SplitOpens(value: string, name: string, blanks: string, version: string)
    requires name != "" && version != "" && ')' !in version
    requires value == name + blanks + "(" + version + ")"
    ensures var p := |name| + |blanks|;
            && Opens(value, p) && value[..p] == name + blanks
            && value[|value| - 1] == ')' && value[p + 1..|value| - 1] == version
  {
  }

  /** Every way to read a value has a name at least as long as the one that is matched. */
  lemma MatchIsShortest(value: string, name: string, version: string)
    requires Stripped(value) && Splits(value, name, version)
    ensures MatchSource(value).Some? && |MatchSource(value).value.0| <= |name|
  {
    var blanks :| Blank(blanks) && value == name + blanks + "(" + version + ")";
    var q := |name| + |blanks|;
    SplitOpens(value, name, blanks, version);
    var p := FirstOpening(value, 1);
    assert p <= q;
    var a := StripRight(value[..p]);
    if p == q {
      StripRightOfBlanks(name, blanks);
    } else {
      assert forall k :: |name| <= k < q ==> value[k] == blanks[k - |name|];
      assert p < |name|;
    }
    assert a <= value[..p] && |a| <= |name|;
    assert a == name[..|a|];
    assert OneLine(a);
  }

  /** What is matched is a way to read the value. */
  lemma MatchSplits(value: string)
    requires Stripped(value) && MatchSource(value).Some?
    ensures var (name, version) := MatchSource(value).value;
            Splits(value, name, version) && Stripped(name)
  {
    var p := FirstOpening(value, 1);
    var name, version := StripRight(value[..p]), value[p + 1..|value| - 1];
    var blanks := value[..p][|name|..];
    StripRightRemainder(value[..p]);
    hide StripRight, FirstOpening;
    assert !Blank(value[..p]) by {
      assert !IsSpace(value[..p][0]);
    }
    assert name[0] == value[0];
    assert value == name + blanks + "(" + version + ")";
  }

  /** The source package and version of a binary package. */
  function InferSource(field: Option<string>, packageName: string, version: string): (string, string) {
    if field.None? || Strip(field.value) == "" then (packageName, version)
    else
      match MatchSource(Strip(field.value))
      case Some((name, sourceVersion)) => (Strip(name), Strip(sourceVersion))
      case None => (Strip(field.value), version)
  }

  // ----- what is read back -----

  function Versioned(name: string, version: string): string {
    name + " (" + version + ")"
  }

  /** Every opening parenthesis but a first character is followed by a closing one. */
  predicate ClosesParentheses(name: string) {
    forall i :: 1 <= i < |name| && name[i] == '(' ==> ')' in name[i + 1..]
  }

  predicate Readable(name: string, version: string) {
    && name != "" && Stripped(name) && OneLine(name) && ClosesParentheses(name)
    && version != "" && Stripped(version) && ')' !in version
  }

  lemma VersionedCharacters(name: string, version: string)
    ensures var t := Versioned(name, version);
            && |t| == |name| + |version| + 3
            && t[..|name|] == name && t[|name|] == ' ' && t[|name| + 1] == '('
            && t[|name| + 2..|t| - 1] == version && t[|t| - 1] == ')'
            && t[..|name| + 1] == name + " "
  {
  }

  lemma OpeningOfReadable(name: string, version: string)
    requires Readable(name, version)
    ensures FirstOpening(Versioned(name, version), 1) == |name| + 1
  {
    var t := Versioned(name, version);
    VersionedCharacters(name, version);
    assert Opens(t, |name| + 1);
    forall k | 1 <= k < |name| + 1
      ensures !Opens(t, k)
    {
      if k < |name| && t[k] == '(' {
        assert name[k] == t[k];
        var j :| 0 <= j < |name[k + 1..]| && name[k + 1..][j] == ')';
        assert t[k + 1..|t| - 1][j] == name[k + 1 + j];
      }
    }
    hide Readable;
  }

  lemma VersionedIsRead(name: string, version: string, packageName: string, binaryVersion: string)
    requires Readable(name, version)
    ensures InferSource(Some(Versioned(name, version)), packageName, binaryVersion) == (name, version)
  {
    var t := Versioned(name, version);
    VersionedCharacters(name, version);
    OpeningOfReadable(name, version);
    assert Stripped(t) by {
      assert t[0] == name[0];
    }
    StripIsStripped(t);
    StripIsStripped(name);
    StripIsStripped(version);
    StripRightOfBlanks(name, " ");
    assert StripRight(name) == name;
    assert t[..|name| + 1] == name + " ";
    hide Strip, StripRight, FirstOpening, Versioned;
    assert MatchSource(t) == Some((name, version));
  }

  /** Without blanks before the name nothing is stripped; with them the name is not read back. */
  lemma VersionedStrip(name: string, version: string)
    ensures var t := Versioned(name, version);
            && (name != "" && !IsSpace(name[0]) ==> Strip(t) == t)
            && Strip(t) != name && Strip(t) != ""
  {
    var t := Versioned(name, version);
    VersionedCharacters(name, version);
    StripIsStripped(t);
    assert !IsSpace(t[|t| - 1]);
    if name != "" && !IsSpace(name[0]) {
      assert t[0] == name[0];
      assert Stripped(t);
    }
  }

  /** When the name is what is matched, its parenthesis is the one after the blank. */
  lemma OpeningOfMatched(name: string, version: string)
    requires var m := MatchSource(Versioned(name, version)); m.Some? && m.value.0 == name
    ensures FirstOpening(Versioned(name, version), 1) == |name| + 1
    ensures MatchSource(Versioned(name, version)).value.1 == version
  {
    var t := Versioned(name, version);
    VersionedCharacters(name, version);
    var p := FirstOpening(t, 1);
    StripRightRemainder(t[..p]);
    hide Versioned, StripRight;
    var blanks := t[..p][|name|..];
    assert forall k :: |name| <= k < p ==> t[k] == blanks[k - |name|];
  }

  lemma EarlierParenthesesClose(name: string, version: string)
    requires FirstOpening(Versioned(name, version), 1) == |name| + 1 && ')' !in version
    ensures ClosesParentheses(name)
  {
    var t := Versioned(name, version);
    VersionedCharacters(name, version);
    hide Versioned;
    forall i | 1 <= i < |name| && name[i] == '('
      ensures ')' in name[i + 1..]
    {
      assert t[i] == name[i] && !Opens(t, i);
      var rest := t[i + 1..|t| - 1];
      var j :| 0 <= j < |rest| && rest[j] == ')';
      assert forall k :: 0 <= k < |version| ==> t[|name| + 2 + k] == version[k];
      assert name[i + 1..][j] == t[i + 1 + j];
    }
  }

  lemma WhatIsReadIsReadable(name: string, version: string, packageName: string, binaryVersion: string)
    requires InferSource(Some(Versioned(name, version)), packageName, binaryVersion) == (name, version)
    ensures Readable(name, version)
  {
    hide Versioned, Strip, FirstOpening, StripRight, ClosesParentheses, OneLine, Blank;
    var t := Versioned(name, version);
    VersionedStrip(name, version);
    StripIsStripped(t);
    var v := Strip(t);
    assert MatchSource(v).Some?;
    var a, b := MatchSource(v).value.0, MatchSource(v).value.1;
    MatchSplits(v);
    assert Splits(v, a, b);
    StripIsStripped(a);
    StripIsStripped(b);
    hide MatchSource, InferSource;
    assert a == name && v == t;
    OpeningOfMatched(name, version);
    EarlierParenthesesClose(name, version);
  }

  /** A source with its version is read back exactly when both parts are readable. */
  lemma VersionedIsReadExactly(name: string, version: string, packageName: string, binaryVersion: string)
    ensures InferSource(Some(Versioned(name, version)), packageName, binaryVersion) == (name, version)
            <==> Readable(name, version)
  {
    hide InferSource, Readable;
    if Readable(name, version) {
      VersionedIsRead(name, version, packageName, binaryVersion);
    } else if InferSource(Some(Versioned(name, version)), packageName, binaryVersion) == (name, version) {
      WhatIsReadIsReadable(name, version, packageName, binaryVersion);
    }
  }

  /** A source without a version is read back exactly when it does not itself look like a name with a version. */
  lemma PlainIsReadExactly(name: string, packageName: string, binaryVersion: string)
    requires name != packageName
    ensures InferSource(Some(name), packageName, binaryVersion) == (name, binaryVersion)
            <==> name != "" && Stripped(name) && MatchSource(name).None?
  {
    var v := Strip(name);
    StripIsStripped(name);
    hide Strip;
    if v != "" && MatchSource(v).Some? {
      MatchSplits(v);
      StripIsStripped(MatchSource(v).value.0);
      assert |MatchSource(v).value.0| < |v|;
    }
  }
}
