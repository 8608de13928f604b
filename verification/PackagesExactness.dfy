/** Writing and reading metadata gives it back exactly when it is well formed and on single lines. */
module PackagesExactness {
  import opened Results
  import opened Lines
  import opened Stanzas
  import opened Dictionaries
  import opened Decimals
  import opened SourceField
  import opened Packages
  import opened PackagesRoundTrip
  import opened PackagesStored
  import opened PackagesProvenance

  // ----- the lines that are written -----

  lemma {:induction false} SplitPrefixed(prefix: string, s: string)
    requires OneLine(prefix)
    ensures Split(prefix + s) == [prefix + Split(s)[0]] + Split(s)[1..]
  {
    if s == "" {
      assert prefix + s == prefix;
      SplitOneLine(prefix);
    } else {
      var n := |s| - 1;
      hide Split, OneLine;
      SplitPrefixed(prefix, s[..n]);
      SplitSnoc(prefix + s[..n], s[n]);
      SplitSnoc(s[..n], s[n]);
      assert s[..n] + [s[n]] == s && (prefix + s[..n]) + [s[n]] == prefix + s;
      AddCharPrefixed(prefix, Split(s[..n]), s[n]);
    }
  }

  lemma AddCharPrefixed(prefix: string, ls: seq<string>, c: char)
    requires ls != []
    ensures AddChar([prefix + ls[0]] + ls[1..], c) == [prefix + AddChar(ls, c)[0]] + AddChar(ls, c)[1..]
  {
    var more, n := [prefix + ls[0]] + ls[1..], |ls| - 1;
    if c == '\n' {
      assert (ls + [""])[1..] == ls[1..] + [""];
    } else if n == 0 {
      assert prefix + ls[0] + [c] == prefix + (ls[0] + [c]);
      assert more == [prefix + ls[0]] && more[..0] == [] && ls[..0] == [];
    } else {
      assert more[..n] == [prefix + ls[0]] + ls[1..n] && more[n] == ls[n];
      assert AddChar(ls, c)[1..] == ls[1..n] + [ls[n] + [c]];
    }
  }

  function PieceLines(f: Field): seq<string> {
    Split(Piece(f))
  }

  lemma RawPieceLines(f: Field)
    requires GoodName(f.name) && f.name != "Description"
    ensures PieceLines(f) == [f.name + ": " + Split(f.value)[0]] + Split(f.value)[1..]
  {
    hide Split, GoodName;
    NameIsOneLine(f.name);
    SplitPrefixed(f.name + ": ", f.value);
  }

  lemma NameIsOneLine(name: string)
    requires GoodName(name)
    ensures OneLine(name + ": ")
  {
  }

  lemma DescriptionLines(f: Field)
    requires GoodName(f.name) && f.name == "Description"
    ensures PieceLines(f) == FieldLines(f)
  {
    hide Split, FieldLines, JoinLines, GoodName, OneLine;
    MarkedAreOneLine(f);
    SplitJoined(FieldLines(f));
  }

  lemma MarkedAreOneLine(f: Field)
    requires GoodName(f.name)
    ensures AllOneLine(FieldLines(f))
  {
    SplitIsLines(f.value);
    hide Split, FieldLines;
    var ls, parts := FieldLines(f), Split(f.value);
    forall l | l in ls
      ensures OneLine(l)
    {
      var i :| 0 <= i < |ls| && ls[i] == l;
      FieldLineAt(f, i);
      assert parts[i] in parts;
    }
  }

  lemma PieceFirst(f: Field)
    requires GoodName(f.name)
    ensures PieceLines(f) != [] && |PieceLines(f)| == |Split(f.value)|
    ensures PieceLines(f)[0] == f.name + ": " + Split(f.value)[0]
  {
    hide Split, GoodName, PieceLines, FieldLines;
    if f.name == "Description" {
      DescriptionLines(f);
      FieldLineAt(f, 0);
    } else {
      RawPieceLines(f);
    }
  }

  lemma HeaderHeads(name: string, first: string)
    requires GoodName(name)
    ensures !IsContinuation(name + ": " + first)
    ensures forall x, y :: Heads(name + ": " + first, x, y) ==> x == name && y == Strip(first)
  {
    var line := name + ": " + first;
    assert line[0] == name[0];
    hide Strip, ColonIndex;
    FirstLineSplits(name, first);
    StripAfterBlank(first);
  }

  /** The header of a piece. */
  lemma PieceHeader(f: Field)
    requires GoodName(f.name)
    ensures PieceLines(f) != [] && |PieceLines(f)| == |Split(f.value)|
    ensures !IsContinuation(PieceLines(f)[0])
    ensures forall name, first :: Heads(PieceLines(f)[0], name, first) ==>
              name == f.name && first == Strip(Split(f.value)[0])
  {
    hide *;
    PieceFirst(f);
    HeaderHeads(f.name, Split(f.value)[0]);
  }

  function Flat(fields: seq<Field>): seq<string> {
    if fields == [] then [] else Flat(fields[..|fields| - 1]) + PieceLines(fields[|fields| - 1])
  }

  lemma {:induction false} PiecesSplit(fields: seq<Field>)
    requires fields != []
    ensures Split(JoinLines(Pieces(fields))) == Flat(fields)
  {
    hide Piece, JoinLines, Split;
    var n := |fields| - 1;
    var init, f := fields[..n], fields[n];
    assert fields == init + [f];
    assert Pieces(fields) == Pieces(init) + [Piece(f)];
    JoinOneMore(Pieces(init), Piece(f));
    if n > 0 {
      PiecesSplit(init);
      SplitBetween(JoinLines(Pieces(init)), Piece(f));
    } else {
      assert Flat(init) == [] && Flat(fields) == [] + PieceLines(f);
      assert [] + PieceLines(f) == PieceLines(f);
    }
  }

  // ----- definitions in the lines that are written -----

  /** No field but the description has more lines. */
  predicate AtMost(fields: seq<Field>, n: nat) {
    forall f :: f in fields && f.name != "Description" ==> |Split(f.value)| <= n
  }

  /** Reading a value of the field as it is written loses the first character of every line but the first. */
  predicate Loses(value: string, parts: seq<string>) {
    && 1 <= |parts| <= |Split(value)| && parts[0] == Strip(Split(value)[0])
    && forall k :: 1 <= k < |parts| ==> Split(value)[k] != "" && parts[k] == Split(value)[k][1..]
  }

  lemma PieceDefines(f: Field, i: nat, name: string, parts: seq<string>, n: nat)
    requires GoodName(f.name) && (f.name != "Description" ==> |Split(f.value)| <= n)
    requires n <= |parts| && Defines(PieceLines(f), i, name, parts)
    ensures name == f.name && (name != "Description" ==> Loses(f.value, parts))
  {
    hide Split, GoodName, IsContinuation, ColonIndex, Strip, PieceLines, FieldLines, Heads, Continues;
    var ls, w := PieceLines(f), Split(f.value);
    PieceHeader(f);
    if i == 0 {
      if f.name != "Description" {
        RawPieceLines(f);
        forall k | 1 <= k < |parts|
          ensures w[k] != "" && parts[k] == w[k][1..]
        {
          assert Continues(ls[k], parts[k]) && ls[k] == w[k];
          Continuing(ls[k], parts[k]);
        }
      }
    } else if f.name == "Description" {
      DescriptionLines(f);
      FieldLineAt(f, i);
      MarkedIsNoHeader(w[i], name, parts[0]);
    }
  }

  lemma Continuing(line: string, part: string)
    requires Continues(line, part)
    ensures line != "" && part == line[1..]
  {
  }

  lemma MarkedIsNoHeader(line: string, name: string, first: string)
    ensures !Heads(" " + line, name, first)
  {
    assert (" " + line)[0] == ' ';
  }

  /** Only the field of that name can define a value with as many lines as the longest that is written. */
  lemma {:induction false} OnlyItsFieldDefines(fields: seq<Field>, i: nat, name: string, parts: seq<string>, n: nat)
    requires GoodNames(fields) && AtMost(fields, n) && n <= |parts|
    requires Defines(Flat(fields), i, name, parts) && name != "Description"
    ensures exists f :: f in fields && f.name == name && Loses(f.value, parts)
  {
    hide Split, GoodName, IsContinuation, Strip, PieceLines, Heads, Continues, Loses;
    var k := |fields| - 1;
    var init, f := fields[..k], fields[k];
    assert f in fields && forall x :: x in init ==> x in fields;
    var before, piece := Flat(init), PieceLines(f);
    var all := before + piece;
    PieceHeader(f);
    if i >= |before| {
      var r := i - |before|;
      assert all[i] == piece[r];
      forall j | r < j < r + |parts|
        ensures Continues(piece[j], parts[j - r])
      {
        assert Continues(all[j + |before|], parts[j + |before| - i]);
      }
      PieceDefines(f, r, name, parts, n);
    } else {
      if i + |parts| > |before| {
        assert Continues(all[|before|], parts[|before| - i]) && all[|before|] == piece[0];
        NotContinuing(piece[0], parts[|before| - i]);
      }
      assert all[i] == before[i];
      forall j | i < j < i + |parts|
        ensures Continues(before[j], parts[j - i])
      {
        assert Continues(all[j], parts[j - i]);
      }
      OnlyItsFieldDefines(init, i, name, parts, n);
    }
  }

  lemma NotContinuing(line: string, part: string)
    requires !IsContinuation(line)
    ensures !Continues(line, part)
  {
  }

  // ----- the longest value -----

  lemma {:induction false} Longest(fields: seq<Field>) returns (n: nat)
    ensures AtMost(fields, n)
    ensures n > 0 ==> exists f :: f in fields && f.name != "Description" && |Split(f.value)| == n
  {
    hide Split;
    n := 0;
    if fields != [] {
      var k := |fields| - 1;
      var rest := Longest(fields[..k]);
      var f := fields[k];
      assert forall x :: x in fields ==> x == f || x in fields[..k];
      n := if f.name != "Description" && |Split(f.value)| > rest then |Split(f.value)| else rest;
    }
  }

  /** A value that loses characters is shorter. */
  lemma LosesLength(value: string, parts: seq<string>)
    requires Loses(value, parts) && |parts| == |Split(value)| >= 2
    ensures |JoinLines(parts)| < |value| && parts[0] <= JoinLines(parts)
  {
    SplitIsLines(value);
    var w := Split(value);
    StripIsShorter(w[0]);
    hide Split, Strip, Loses;
    ShorterLines(parts, w);
    FirstIsPrefix(parts);
  }

  lemma StripIsShorter(s: string)
    ensures |Strip(s)| <= |s|
  {
  }

  lemma {:induction false} ShorterLines(a: seq<string>, b: seq<string>)
    requires |a| == |b| > 0 && |a[0]| <= |b[0]|
    requires forall k :: 1 <= k < |a| ==> |a[k]| < |b[k]|
    ensures |JoinLines(a)| <= |JoinLines(b)| && (|a| > 1 ==> |JoinLines(a)| < |JoinLines(b)|)
  {
    var n := |a| - 1;
    if n > 0 {
      ShorterLines(a[..n], b[..n]);
    }
  }

  lemma {:induction false} FirstIsPrefix(ls: seq<string>)
    requires ls != []
    ensures ls[0] <= JoinLines(ls)
  {
    if |ls| > 1 {
      FirstIsPrefix(ls[..|ls| - 1]);
    }
  }

  // ----- the source cannot be on several lines -----

  function Newlines(s: string): nat {
    if s == "" then 0 else Newlines(s[..|s| - 1]) + if s[|s| - 1] == '\n' then 1 else 0
  }

  lemma {:induction false} SplitCounts(s: string)
    ensures |Split(s)| == Newlines(s) + 1
  {
    if s != "" {
      SplitCounts(s[..|s| - 1]);
    }
  }

  lemma {:induction false} NewlinesInTwo(a: string, b: string)
    ensures Newlines(a + b) == Newlines(a) + Newlines(b)
  {
    if b == "" {
      assert a + b == a;
    } else {
      var n := |b| - 1;
      assert (a + b)[..|a + b| - 1] == a + b[..n];
      NewlinesInTwo(a, b[..n]);
    }
  }

  lemma {:induction false} OneLineCounts(s: string)
    ensures OneLine(s) <==> Newlines(s) == 0
  {
    if s != "" {
      var n := |s| - 1;
      OneLineCounts(s[..n]);
      assert s == s[..n] + [s[n]];
    }
  }

  lemma StripCounts(s: string)
    ensures Newlines(Strip(s)) <= Newlines(s) && |Strip(s)| <= |s|
    ensures |Strip(s)| == |s| ==> Strip(s) == s
  {
    hide StripLeft, StripRight, Newlines, Blank;
    var l := StripLeft(s);
    var r := StripRight(l);
    var before, after := s[..|s| - |l|], l[|r|..];
    NewlinesInTwo(before, l);
    assert before + l == s;
    NewlinesInTwo(r, after);
    assert r + after == l;
  }

  /** The name and version that are told from a value have no more newlines than it. */
  lemma SourceCounts(value: string, packageName: string, version: string)
    ensures var (name, sourceVersion) := InferSource(Some(value), packageName, version);
            && (sourceVersion != version ==> OneLine(name) && Newlines(sourceVersion) <= Newlines(value))
            && (sourceVersion == version && name != packageName ==> Newlines(name) <= Newlines(value))
  {
    var v := Strip(value);
    StripCounts(value);
    StripIsStripped(value);
    hide Strip, Newlines, OneLine;
    if v != "" && MatchSource(v).Some? {
      var a, b := MatchSource(v).value.0, MatchSource(v).value.1;
      MatchSplits(v);
      StripIsStripped(a);
      StripCounts(b);
      var blanks :| Blank(blanks) && v == a + blanks + "(" + b + ")";
      NewlinesInTwo(a + blanks + "(" + b, ")");
      NewlinesInTwo(a + blanks + "(", b);
      NewlinesInTwo(a + blanks, "(");
      NewlinesInTwo(a, blanks);
    }
  }

  lemma WrittenSourceCounts(m: PackageMetadata, value: string)
    requires SourceOf(m).Some? && InferSource(Some(value), m.packageName, m.version) == (m.sourcePackage, m.sourceVersion)
    ensures Newlines(SourceOf(m).value) <= Newlines(value)
  {
    SourceCounts(value, m.packageName, m.version);
    if m.sourceVersion != m.version {
      OneLineCounts(m.sourcePackage);
      NewlinesInTwo(m.sourcePackage + " (" + m.sourceVersion, ")");
      NewlinesInTwo(m.sourcePackage + " (", m.sourceVersion);
      NewlinesInTwo(m.sourcePackage, " (");
      NewlinesInConstants();
    }
  }

  lemma NewlinesInConstants()
    ensures Newlines(" (") == 0 && Newlines(")") == 0
  {
    OneLineCounts(" (");
    OneLineCounts(")");
  }

  /** A value shorter than what is written, with the same beginning, does not tell the same source. */
  lemma ShorterSourceIsOther(m: PackageMetadata, value: string)
    requires SourceOf(m).Some? && !OneLine(SourceOf(m).value) && |value| < |SourceOf(m).value|
    requires Strip(Split(SourceOf(m).value)[0]) <= value
    ensures InferSource(Some(value), m.packageName, m.version) != (m.sourcePackage, m.sourceVersion)
  {
    hide Split, Strip, MatchSource, OneLine, Versioned;
    if InferSource(Some(value), m.packageName, m.version) == (m.sourcePackage, m.sourceVersion) {
      if m.sourceVersion != m.version {
        MatchedSourceIsLonger(m, value);
      } else {
        InferredNameIsNoLonger(value, m.packageName, m.version);
      }
    }
  }

  lemma InferredNameIsNoLonger(value: string, packageName: string, version: string)
    requires Strip(value) != ""
    ensures |InferSource(Some(value), packageName, version).0| <= |value|
  {
    hide Strip, MatchSource, OneLine, Newlines;
    var v := Strip(value);
    StripCounts(value);
    StripIsStripped(value);
    if MatchSource(v).Some? {
      var blanks := MatchedForm(v);
      StripCounts(MatchSource(v).value.0);
    }
  }

  lemma MatchedSourceIsLonger(m: PackageMetadata, value: string)
    requires m.sourceVersion != m.version && MatchSource(Strip(value)).Some?
    requires Strip(MatchSource(Strip(value)).value.0) == m.sourcePackage
    requires Strip(MatchSource(Strip(value)).value.1) == m.sourceVersion
    requires !OneLine(Versioned(m.sourcePackage, m.sourceVersion))
    requires |value| < |Versioned(m.sourcePackage, m.sourceVersion)|
    ensures !(Strip(Split(Versioned(m.sourcePackage, m.sourceVersion))[0]) <= value)
  {
    hide MatchSource, Newlines, Strip, Split, OneLine, Stripped, Blank;
    var v := Strip(value);
    var a, b := MatchSource(v).value.0, MatchSource(v).value.1;
    StripIsStripped(value);
    StripCounts(b);
    StripCounts(value);
    var blanks := MatchedForm(v);
    StripIsStripped(a);
    VersionedCharacters(m.sourcePackage, m.sourceVersion);
    assert |v| == |a| + |blanks| + |b| + 2;
    assert |blanks| == 0 && |b| == |m.sourceVersion| && v == value;
    hide Versioned;
    MatchedCharacter(a, blanks, b);
    VersionedFirstLine(m.sourcePackage, m.sourceVersion);
  }

  lemma MatchedForm(v: string) returns (blanks: string)
    requires Stripped(v) && MatchSource(v).Some?
    ensures var (a, b) := MatchSource(v).value; v == a + blanks + "(" + b + ")" && a != "" && OneLine(a) && Stripped(a)
  {
    MatchSplits(v);
    hide MatchSource;
    var (a, b) := MatchSource(v).value;
    blanks :| Blank(blanks) && v == a + blanks + "(" + b + ")";
  }

  lemma MatchedCharacter(a: string, blanks: string, b: string)
    requires blanks == ""
    ensures (a + blanks + "(" + b + ")")[|a|] == '('
  {
  }

  /** The first line of a written source keeps the blank after the name. */
  lemma VersionedFirstLine(name: string, version: string)
    requires name != "" && Stripped(name) && OneLine(name)
    ensures var first := Strip(Split(Versioned(name, version))[0]); |first| > |name| && first[|name|] == ' '
  {
    var prefix, rest := name + " (", version + ")";
    assert Versioned(name, version) == prefix + rest;
    assert OneLine(prefix);
    SplitPrefixed(prefix, rest);
    var line := Split(Versioned(name, version))[0];
    hide Split, Versioned;
    assert prefix <= line;
    StripKeepsPrefix(line, prefix);
  }

  /** Stripping keeps a prefix without outer blanks. */
  lemma StripKeepsPrefix(s: string, prefix: string)
    requires prefix <= s && prefix != "" && Stripped(prefix)
    ensures prefix <= Strip(s)
  {
    assert s[0] == prefix[0];
    assert StripLeft(s) == s;
    StripRightKeepsPrefix(s, prefix);
  }

  lemma {:induction false} StripRightKeepsPrefix(s: string, prefix: string)
    requires prefix <= s && prefix != "" && !IsSpace(prefix[|prefix| - 1])
    ensures prefix <= StripRight(s)
  {
    if IsSpace(s[|s| - 1]) {
      assert |s| > |prefix| by {
        assert s[|prefix| - 1] == prefix[|prefix| - 1];
      }
      StripRightKeepsPrefix(s[..|s| - 1], prefix);
    }
  }

  // ----- only single lines survive -----

  lemma {:induction false} ReadFromBlock(blocks: seq<seq<string>>, m: PackageMetadata) returns (block: seq<string>)
    requires m in AllMetadata(blocks)
    ensures block in blocks && MetadataOf(FieldsOf(block)) == Some(m)
  {
    hide MetadataOf, FieldsOf;
    var n := |blocks| - 1;
    if m in AllMetadata(blocks[..n]) {
      block := ReadFromBlock(blocks[..n], m);
    } else {
      block := blocks[n];
    }
  }

  /** The size and the source aside, a value of the metadata is the value of its field. */
  lemma ValueIsRead(m: PackageMetadata, fields: seq<Field>, j: nat)
    requires MetadataOf(fields) == Some(m) && j < |KEYS| && j != 5 && j != 6 && Values(m)[j].Some?
    ensures Find(fields, KEYS[j]) == Values(m)[j]
  {
    hide MetadataOf, Find, Values;
    WhereMetadataComesFrom(fields);
    ValuesOf(m);
    KeysAt();
  }

  lemma SourceIsReadFrom(m: PackageMetadata, fields: seq<Field>)
    requires MetadataOf(fields) == Some(m) && SourceOf(m).Some?
    ensures var value := Find(fields, "Source");
            value.Some? && InferSource(value, m.packageName, m.version) == (m.sourcePackage, m.sourceVersion)
  {
    hide Find, ParseInt, OrNone, MatchSource, Strip;
    NoSource(m.packageName, m.version);
  }

  /** Definitions in a written stanza that are long enough lose characters of the field itself. */
  lemma WrittenLoses(m: PackageMetadata, f: Field, parts: seq<string>, n: nat)
    requires f in Written(m) && f.name != "Description" && AtMost(Written(m), n) && n <= |parts|
    requires Defined(Split(Formatted(m)), f.name, parts)
    ensures Loses(f.value, parts)
  {
    hide Written, Values, Formatted, AtMost, Loses, Defines, GoodName, Split;
    var fields := Written(m);
    WrittenIsSomething(m);
    WrittenHasGoodNames(m);
    WrittenFields(m);
    PiecesSplit(fields);
    var i: nat :| Defines(Split(Formatted(m)), i, f.name, parts);
    OnlyItsFieldDefines(fields, i, f.name, parts, n);
    var g :| g in fields && g.name == f.name && Loses(g.value, parts);
    SameField(fields, f, g);
  }

  lemma WrittenHasGoodNames(m: PackageMetadata)
    ensures GoodNames(Written(m))
  {
    hide Written, Values, GoodName;
    WrittenFields(m);
    KeysAreGood();
    forall f | f in Written(m)
      ensures GoodName(f.name)
    {
      var j :| 0 <= j < |KEYS| && Values(m)[j].Some? && f == Field(KEYS[j], Values(m)[j].value);
      assert KEYS[j] in KEYS;
    }
  }

  lemma SameField(fields: seq<Field>, f: Field, g: Field)
    requires Distinct(fields) && f in fields && g in fields && f.name == g.name
    ensures f == g
  {
    var i :| 0 <= i < |fields| && fields[i] == f;
    var j :| 0 <= j < |fields| && fields[j] == g;
    assert i == j;
  }

  /** No value is what is left when it has lost characters. */
  lemma NothingLosesToItself(value: string)
    requires |Split(value)| >= 2
    ensures !Loses(value, Split(value))
  {
    hide Split, Strip;
    var w := Split(value);
    if w[1] != "" {
      assert |w[1][1..]| < |w[1]|;
    }
  }

  lemma LongSourceIsLost(m: PackageMetadata, value: string, n: nat)
    requires SourceOf(m).Some? && n == |Split(SourceOf(m).value)| >= 2
    requires Loses(SourceOf(m).value, Split(value)) && n <= |Split(value)|
    ensures InferSource(Some(value), m.packageName, m.version) != (m.sourcePackage, m.sourceVersion)
  {
    var w, parts := SourceOf(m).value, Split(value);
    SplitIsLines(value);
    SplitCounts(w);
    OneLineCounts(w);
    hide Split, Strip, SourceOf, InferSource, JoinLines, Newlines, OneLine;
    LosesLength(w, parts);
    LosesFirst(w, parts);
    ShorterSourceIsOther(m, value);
  }

  lemma LosesFirst(value: string, parts: seq<string>)
    requires Loses(value, parts)
    ensures 1 <= |parts| <= |Split(value)| && parts[0] == Strip(Split(value)[0])
  {
    hide Split, Strip;
  }

  /** The longest value that is written, the description aside, cannot have a newline. */
  lemma LongestIsOneLine(m: PackageMetadata, f: Field, n: nat)
    requires m in AllMetadata(Blocks(Formatted(m)))
    requires f in Written(m) && f.name != "Description" && AtMost(Written(m), n) && n == |Split(f.value)|
    ensures n <= 1
  {
    if n >= 2 {
      hide Written, Values, Formatted, AtMost, Loses, Defined, Split, MetadataOf, FieldsOf, AllMetadata, Blocks, Find,
        InferSource, SourceOf, Numeral, Newlines, OneLine, Strip;
      var text := Formatted(m);
      var block := ReadFromBlock(Blocks(text), m);
      var fields := FieldsOf(block);
      WrittenFields(m);
      ValuesOf(m);
      KeysAt();
      var j :| 0 <= j < |KEYS| && Values(m)[j].Some? && f == Field(KEYS[j], Values(m)[j].value);
      ReadIsDefined(text, block, f.name);
      SplitCounts(f.value);
      if j == 5 {
        NumeralIsOneLine(m.sizeBytes);
        OneLineCounts(f.value);
        assert false;
      } else if j == 6 {
        SourceIsReadFrom(m, fields);
        var value := Find(fields, "Source").value;
        WrittenSourceCounts(m, value);
        SplitCounts(value);
        WrittenLoses(m, f, Split(value), n);
        LongSourceIsLost(m, value, n);
        assert false;
      } else {
        ValueIsRead(m, fields, j);
        WrittenLoses(m, f, Split(f.value), n);
        NothingLosesToItself(f.value);
        assert false;
      }
    }
  }

  lemma WrittenIsOneLine(m: PackageMetadata, j: nat)
    requires m in AllMetadata(Blocks(Formatted(m))) && j < 13 && Values(m)[j].Some?
    ensures OneLine(Values(m)[j].value)
  {
    hide Written, Values, Formatted, Split, AllMetadata, Blocks, Newlines, OneLine;
    var f := Field(KEYS[j], Values(m)[j].value);
    KeysAreGood();
    WrittenHas(m, j);
    var n := Longest(Written(m));
    if n > 0 {
      var g :| g in Written(m) && g.name != "Description" && |Split(g.value)| == n;
      LongestIsOneLine(m, g, n);
    }
    assert |Split(f.value)| <= n;
    SplitCounts(f.value);
    OneLineCounts(f.value);
  }

  lemma WrittenHas(m: PackageMetadata, j: nat)
    requires j < |KEYS| && Values(m)[j].Some?
    ensures Field(KEYS[j], Values(m)[j].value) in Written(m)
  {
    hide Values;
    KnownHas(KEYS, Values(m), 0, j);
  }

  lemma {:induction false} KnownHas(keys: seq<string>, values: seq<Option<string>>, i: nat, j: nat)
    requires i <= j < |keys| == |values| && values[j].Some?
    ensures Field(keys[j], values[j].value) in Known(keys, values, i)
    decreases j - i
  {
    if i < j {
      KnownHas(keys, values, i + 1, j);
    }
  }

  /** Metadata that is read back was on single lines. */
  lemma OnlySingleLinesSurvive(m: PackageMetadata)
    requires m in AllMetadata(Blocks(Formatted(m)))
    ensures SingleLines(m)
  {
    hide Values, Formatted, AllMetadata, Blocks, OneLine, Numeral;
    ValuesOf(m);
    KeysAt();
    forall j: nat | j < 13 && Values(m)[j].Some?
      ensures OneLine(Values(m)[j].value)
    {
      WrittenIsOneLine(m, j);
    }
    SourceParts(m);
    assert OneLine(Values(m)[0].value) && OneLine(Values(m)[1].value) && OneLine(Values(m)[2].value);
    assert OneLine(Values(m)[3].value) && OneLine(Values(m)[4].value);
    assert SourceOf(m).Some? ==> OneLine(Values(m)[6].value);
    assert m.homepage.Some? ==> OneLine(Values(m)[7].value);
    assert m.maintainer.Some? ==> OneLine(Values(m)[8].value);
    assert m.depends.Some? ==> OneLine(Values(m)[9].value);
    assert m.provided.Some? ==> OneLine(Values(m)[10].value);
    assert m.section.Some? ==> OneLine(Values(m)[11].value);
    assert m.priority.Some? ==> OneLine(Values(m)[12].value);
  }

  lemma SourceParts(m: PackageMetadata)
    requires OneLine(m.packageName) && OneLine(m.version)
    ensures (SourceOf(m).Some? ==> OneLine(SourceOf(m).value)) ==> OneLine(m.sourcePackage) && OneLine(m.sourceVersion)
  {
    var name, version := m.sourcePackage, m.sourceVersion;
    assert forall c :: c in name ==> c in Versioned(name, version);
    assert forall c :: c in version ==> c in Versioned(name, version);
  }

  // ----- the round trip -----

  /** Over all metadata: what is written is read back if and only if every field but the description is on
      one line, the fields are well formed, and the source can be told from the field written for it. */
  lemma RoundTripsExactly(m: PackageMetadata)
    ensures AllMetadata(Blocks(Formatted(m))) == [m] <==> SingleLines(m) && GoodFields(m) && GoodSource(m)
  {
    hide AllMetadata, Formatted, GoodFields, GoodSource, Reread, SingleLines, Blocks;
    var read := AllMetadata(Blocks(Formatted(m)));
    SourceIsToldExactly(m);
    if read == [m] {
      assert m in read;
      OnlySingleLinesSurvive(m);
      ReadIsGood(Formatted(m), m);
    }
    if SingleLines(m) && GoodFields(m) {
      ReadBack(m);
      assert read == [m] ==> read[0] == m;
    }
  }

  /** Every text: metadata that is read from it survives writing and reading if and only if it is on single
      lines, the description aside, and its source can be told. */
  lemma ReprintKeepsExactly(text: string, m: PackageMetadata)
    requires m in AllMetadata(Blocks(text))
    ensures AllMetadata(Blocks(Formatted(m))) == [m] <==> SingleLines(m) && GoodSource(m)
  {
    hide AllMetadata, Formatted, GoodFields, GoodSource, SingleLines, Blocks;
    ReadIsGood(text, m);
    RoundTripsExactly(m);
  }

  /** A folded Depends field, of any package otherwise well formed: it is read from a text, and what is
      written for it is not read back. */
  lemma FoldedFieldIsLost(m: PackageMetadata, first: string, second: string)
    requires SingleLines(m) && GoodFields(m) && GoodSource(m)
    requires OneLine(first) && Stripped(first) && OneLine(second) && !Blank(second)
    ensures var folded := m.(depends := Some(first + "\n" + second));
            && AllMetadata(Blocks(Marked(folded))) == [folded]
            && AllMetadata(Blocks(Formatted(folded))) != [folded]
  {
    var value := first + "\n" + second;
    var folded := m.(depends := Some(value));
    FoldedIsGood(m, first, second);
    assert SourceOf(folded) == SourceOf(m);
    hide AllMetadata, Blocks, Marked, Formatted, GoodFields, GoodSource, OneLine;
    SourceIsToldExactly(m);
    ReadMarked(folded);
    RoundTripsExactly(folded);
    assert '\n' in value by {
      assert value[|first|] == '\n';
    }
    FoldedIsFolded(folded);
  }

  lemma FoldedIsFolded(m: PackageMetadata)
    requires m.depends.Some? && '\n' in m.depends.value
    ensures !SingleLines(m)
  {
    assert Optionals(m)[2] == m.depends && Optionals(m)[2] in Optionals(m);
  }

  lemma FoldedIsGood(m: PackageMetadata, first: string, second: string)
    requires GoodFields(m) && OneLine(first) && Stripped(first) && OneLine(second) && !Blank(second)
    ensures GoodFields(m.(depends := Some(first + "\n" + second)))
  {
    var value := first + "\n" + second;
    var folded := m.(depends := Some(value));
    SplitBetween(first, second);
    SplitOneLine(first);
    SplitOneLine(second);
    assert Split(value) == [first, second];
    assert Stated(value);
    hide Split, Stated, StoredValue;
    assert forall v :: v in Optionals(folded) ==> v in Optionals(m) || v == Some(value);
  }
}
