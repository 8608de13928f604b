/** Reading written package metadata gives it back exactly when it is well formed. */
module PackagesRoundTrip {
  import opened Results
  import opened Lines
  import opened Stanzas
  import opened Dictionaries
  import opened Decimals
  import opened SourceField
  import opened Packages

  // ----- well-formed metadata -----

  predicate AllOptional(values: seq<Option<string>>, p: string -> bool) {
    forall v :: v in values && v.Some? ==> p(v.value)
  }

  /** The optional fields that are written as they are. */
  function Optionals(m: PackageMetadata): seq<Option<string>> {
    [m.homepage, m.maintainer, m.depends, m.provided, m.section, m.priority]
  }

  /** No field but the description has a newline, and the size is a number of bytes. */
  predicate SingleLines(m: PackageMetadata) {
    && OneLine(m.packageName) && OneLine(m.version) && OneLine(m.architecture) && OneLine(m.filename)
    && OneLine(m.sha256) && OneLine(m.sourcePackage) && OneLine(m.sourceVersion)
    && AllOptional(Optionals(m), OneLine)
  }

  /** Lines as the parser stores them: the first one stripped, no blank line after it. */
  predicate StoredLines(lines: seq<string>) {
    && lines != [] && AllOneLine(lines) && Stripped(lines[0])
    && forall i :: 1 <= i < |lines| ==> !Blank(lines[i])
  }

  predicate StoredValue(value: string) {
    StoredLines(Split(value))
  }

  predicate Stated(value: string) {
    value != "" && StoredValue(value)
  }

  /** Values the parser can return, on any number of lines. */
  predicate GoodFields(m: PackageMetadata) {
    && StoredValue(m.packageName) && StoredValue(m.version) && StoredValue(m.architecture) && StoredValue(m.filename)
    && StoredValue(m.sha256) && m.sizeBytes >= 0
    && AllOptional(Optionals(m), Stated)
    && (m.description.Some? ==> Stated(m.description.value))
  }

  /** The source can be told from the Source field that is written, if one is. */
  predicate GoodSource(m: PackageMetadata) {
    if m.sourceVersion != m.version then Readable(m.sourcePackage, m.sourceVersion)
    else if m.sourcePackage != m.packageName then
      m.sourcePackage != "" && Stripped(m.sourcePackage) && MatchSource(m.sourcePackage).None?
    else true
  }

  // ----- one field -----

  predicate GoodName(name: string) {
    name != "" && ':' !in name && OneLine(name) && !IsSpace(name[0])
  }

  /** The first line of a value is read without its outer blanks. */
  function Trim(value: string): string {
    JoinLines([Strip(Split(value)[0])] + Split(value)[1..])
  }

  function TrimField(f: Field): Field {
    Field(f.name, Trim(f.value))
  }

  function TrimAll(fields: seq<Field>): (r: seq<Field>)
    ensures |r| == |fields|
  {
    seq(|fields|, i requires 0 <= i < |fields| => TrimField(fields[i]))
  }

  lemma FieldLineAt(f: Field, i: nat)
    requires i < |Split(f.value)|
    ensures FieldLines(f)[i] == if i == 0 then f.name + ": " + Split(f.value)[0] else " " + Split(f.value)[i]
  {
    hide Split;
  }

  lemma FirstLineIsRead(r: Reading, name: string, first: string)
    requires GoodName(name)
    ensures ReadLine(r, name + ": " + first) == Reading(Packages.Saved(r), Some(name), [Strip(first)])
  {
    var line := name + ": " + first;
    FirstLineSplits(name, first);
    assert line[0] == name[0];
    StripAfterBlank(first);
    hide Strip, Packages.Saved;
  }

  lemma ContinuationIsRead(r: Reading, line: string)
    requires r.key.Some?
    ensures ReadLine(r, " " + line) == r.(lines := r.lines + [line])
  {
    var t := " " + line;
    assert t[0] == ' ' && t[1..] == line;
  }

  lemma {:induction false} FieldPrefixIsRead(r: Reading, f: Field, k: nat)
    requires GoodName(f.name) && 1 <= k <= |Split(f.value)|
    ensures ReadLines(r, FieldLines(f)[..k])
            == Reading(Packages.Saved(r), Some(f.name), [Strip(Split(f.value)[0])] + Split(f.value)[1..k])
  {
    hide Split, ReadLine, GoodName, Packages.Saved, Strip, FieldLines;
    var ls, parts := FieldLines(f), Split(f.value);
    FieldLineAt(f, k - 1);
    assert ls[..k][..k - 1] == ls[..k - 1] && ls[..k][k - 1] == ls[k - 1];
    if k == 1 {
      FirstLineIsRead(r, f.name, parts[0]);
      assert ReadLines(r, []) == r;
      assert [Strip(parts[0])] + parts[1..1] == [Strip(parts[0])];
    } else {
      FieldPrefixIsRead(r, f, k - 1);
      var before := [Strip(parts[0])] + parts[1..k - 1];
      ContinuationIsRead(Reading(Packages.Saved(r), Some(f.name), before), parts[k - 1]);
      assert before + [parts[k - 1]] == [Strip(parts[0])] + parts[1..k];
    }
  }

  lemma FieldIsRead(r: Reading, f: Field)
    requires GoodName(f.name)
    ensures Packages.Saved(ReadLines(r, FieldLines(f))) == Put(Packages.Saved(r), f.name, Trim(f.value))
  {
    hide Split, ReadLines, GoodName, Strip, FieldLines, JoinLines, Put;
    var parts := Split(f.value);
    FieldPrefixIsRead(r, f, |parts|);
    assert FieldLines(f)[..|parts|] == FieldLines(f) && parts[1..|parts|] == parts[1..];
  }

  // ----- one stanza -----

  function AllLines(fields: seq<Field>): seq<string> {
    if fields == [] then [] else AllLines(fields[..|fields| - 1]) + FieldLines(fields[|fields| - 1])
  }

  predicate GoodNames(fields: seq<Field>) {
    forall f :: f in fields ==> GoodName(f.name)
  }

  lemma {:induction false} ReadInTwo(r: Reading, a: seq<string>, b: seq<string>)
    ensures ReadLines(r, a + b) == ReadLines(ReadLines(r, a), b)
  {
    if b == [] {
      assert a + b == a;
    } else {
      hide ReadLine;
      var n := |b| - 1;
      assert (a + b)[..|a + b| - 1] == a + b[..n];
      ReadInTwo(r, a, b[..n]);
    }
  }

  lemma {:induction false} StanzaIsRead(fields: seq<Field>)
    requires GoodNames(fields) && Distinct(fields)
    ensures Packages.FieldsOf(AllLines(fields)) == TrimAll(fields)
  {
    hide ReadLine, GoodName, TrimField, FieldLines, Put;
    if fields != [] {
      var n := |fields| - 1;
      var init, f := fields[..n], fields[n];
      assert fields == init + [f] && f in fields && forall x :: x in init ==> x in fields;
      StanzaIsRead(init);
      hide ReadLines;
      ReadInTwo(Packages.START, AllLines(init), FieldLines(f));
      FieldIsRead(ReadLines(Packages.START, AllLines(init)), f);
      PutTrimmed(init, f);
    }
  }

  lemma PutTrimmed(init: seq<Field>, f: Field)
    requires Distinct(init + [f])
    ensures Put(TrimAll(init), f.name, Trim(f.value)) == TrimAll(init + [f])
  {
    hide Trim, Put;
    var all, trimmed := init + [f], TrimAll(init);
    forall x | x in trimmed
      ensures x.name !in [f.name]
    {
      var i :| 0 <= i < |trimmed| && trimmed[i] == x;
      assert all[i].name != all[|init|].name;
    }
    PutNew(trimmed, f.name, Trim(f.value));
    assert TrimAll(all) == trimmed + [TrimField(f)];
  }

  /** Lines after the first are not blank. */
  predicate NoBlankRest(value: string) {
    forall i :: 1 <= i < |Split(value)| ==> !Blank(Split(value)[i])
  }

  lemma FieldHasNoBlank(f: Field)
    requires GoodName(f.name) && NoBlankRest(f.value)
    ensures NoBlank(FieldLines(f))
  {
    SplitIsLines(f.value);
    hide Split, FieldLines;
    var ls, parts := FieldLines(f), Split(f.value);
    forall l | l in ls
      ensures !Blank(l) && OneLine(l)
    {
      var i :| 0 <= i < |ls| && ls[i] == l;
      FieldLineAt(f, i);
      assert parts[i] in parts;
      if i == 0 {
        assert l[|f.name|] == ':';
      } else {
        var j :| 0 <= j < |parts[i]| && !IsSpace(parts[i][j]);
        assert l[j + 1] == parts[i][j];
      }
    }
  }

  lemma {:induction false} StanzaHasNoBlank(fields: seq<Field>)
    requires GoodNames(fields) && forall f :: f in fields ==> NoBlankRest(f.value)
    ensures NoBlank(AllLines(fields)) && (fields != [] ==> AllLines(fields) != [])
  {
    hide GoodName, NoBlankRest, FieldLines, Blank, OneLine;
    if fields != [] {
      var n := |fields| - 1;
      var init, f := fields[..n], fields[n];
      assert f in fields && forall x :: x in init ==> x in fields;
      StanzaHasNoBlank(init);
      FieldHasNoBlank(f);
    }
  }

  lemma {:induction false} OneBlock(block: seq<string>, current: seq<string>)
    requires NoBlank(block)
    ensures BlocksFrom(block, current) == Closed(current + block)
  {
    if block == [] {
      assert current + block == current;
    } else {
      assert block[0] in block && forall l :: l in block[1..] ==> l in block;
      OneBlock(block[1..], current + [block[0]]);
      assert current + [block[0]] + block[1..] == current + block;
    }
  }

  lemma StanzaIsOneBlock(fields: seq<Field>)
    requires fields != [] && GoodNames(fields) && forall f :: f in fields ==> NoBlankRest(f.value)
    ensures Blocks(JoinLines(AllLines(fields))) == [AllLines(fields)]
  {
    StanzaHasNoBlank(fields);
    var ls := AllLines(fields);
    hide AllLines, GoodNames, NoBlankRest;
    SplitJoined(ls);
    OneBlock(ls, []);
    assert [] + ls == ls;
  }

  // ----- the text that is written -----

  lemma {:induction false} PiecesAreLines(fields: seq<Field>)
    requires forall f :: f in fields ==> Piece(f) == JoinLines(FieldLines(f))
    ensures JoinLines(Pieces(fields)) == JoinLines(AllLines(fields))
    ensures fields != [] ==> AllLines(fields) != []
  {
    hide Piece, FieldLines, JoinLines;
    if fields == [] {
      assert Pieces(fields) == [] && AllLines(fields) == [];
    } else {
      var n := |fields| - 1;
      var init, f := fields[..n], fields[n];
      assert f in fields && forall x :: x in init ==> x in fields;
      PiecesAreLines(init);
      assert Pieces(fields) == Pieces(init) + [Piece(f)];
      JoinOneMore(Pieces(init), Piece(f));
      if n > 0 {
        JoinAppend(AllLines(init), FieldLines(f));
      } else {
        assert AllLines(fields) == [] + FieldLines(f);
        assert [] + FieldLines(f) == FieldLines(f);
      }
    }
  }

  lemma OneLinePiece(f: Field)
    requires OneLine(f.value)
    ensures Piece(f) == JoinLines(FieldLines(f))
  {
    hide Split, OneLine;
    SplitOneLine(f.value);
    FieldLineAt(f, 0);
    hide FieldLines;
    assert FieldLines(f) == [f.name + ": " + f.value];
  }

  lemma OneLineTrim(value: string)
    requires OneLine(value)
    ensures Trim(value) == Strip(value)
  {
    hide Split, OneLine, Strip;
    SplitOneLine(value);
    assert [value][1..] == [] && [Strip(value)] + [] == [Strip(value)];
  }

  lemma StoredTrim(value: string)
    requires StoredValue(value)
    ensures Trim(value) == value && NoBlankRest(value)
  {
    hide JoinLines, Strip, Split;
    SplitIsLines(value);
    var parts := Split(value);
    StripIsStripped(parts[0]);
    assert [parts[0]] + parts[1..] == parts;
  }

  // ----- the fields that are written -----

  lemma KeyIsGood(j: nat)
    requires j < |KEYS|
    ensures GoodName(KEYS[j])
  {
    hide GoodName;
    var k := KEYS[j];
    AlphanumericIsGood(k);
  }

  lemma AlphanumericIsGood(k: string)
    requires k != "" && forall i :: 0 <= i < |k| ==> ('a' <= k[i] <= 'z' || 'A' <= k[i] <= 'Z' || '0' <= k[i] <= '9')
    ensures GoodName(k)
  {
  }

  lemma KeysAreGood()
    ensures DistinctKeys(KEYS) && forall k :: k in KEYS ==> GoodName(k)
    ensures forall i :: 0 <= i < 13 ==> KEYS[i] != "Description"
    ensures KEYS[13] == "Description" && |KEYS| == 14
  {
    hide GoodName;
    forall k | k in KEYS
      ensures GoodName(k)
    {
      var j :| 0 <= j < |KEYS| && KEYS[j] == k;
      KeyIsGood(j);
    }
    KeysDiffer();
  }

  lemma KeysDiffer()
    ensures DistinctKeys(KEYS)
  {
  }

  function Written(m: PackageMetadata): seq<Field> {
    Known(KEYS, Values(m), 0)
  }

  lemma WrittenFields(m: PackageMetadata)
    ensures Formatted(m) == JoinLines(Pieces(Written(m)))
    ensures forall f :: f in Written(m) ==>
              exists j :: 0 <= j < |KEYS| && Values(m)[j].Some? && f == Field(KEYS[j], Values(m)[j].value)
  {
    hide Values;
    KnownToIsKnown(KEYS, Values(m), |KEYS|);
    assert FirstFields(m, |KEYS|) + [] == FirstFields(m, |KEYS|);
    KnownValues(KEYS, Values(m), 0);
  }

  lemma {:induction false} KnownValues(keys: seq<string>, values: seq<Option<string>>, i: nat)
    requires i <= |keys| == |values|
    ensures forall f :: f in Known(keys, values, i) ==>
              exists j :: i <= j < |keys| && values[j].Some? && f == Field(keys[j], values[j].value)
    decreases |keys| - i
  {
    if i < |keys| {
      KnownValues(keys, values, i + 1);
    }
  }

  lemma {:induction false} KnownIsDistinct(keys: seq<string>, values: seq<Option<string>>, i: nat)
    requires i <= |keys| == |values| && DistinctKeys(keys)
    ensures Distinct(Known(keys, values, i))
    decreases |keys| - i
  {
    if i < |keys| {
      KnownIsDistinct(keys, values, i + 1);
      KnownNames(keys, values, i + 1);
      var head, tail := Optional(keys[i], values[i]), Known(keys, values, i + 1);
      assert forall f :: f in tail ==> f.name != keys[i];
      hide Known, DistinctKeys;
      forall a, b | 0 <= a < b < |head + tail|
        ensures (head + tail)[a].name != (head + tail)[b].name
      {
        assert b >= |head| ==> (head + tail)[b] == tail[b - |head|] && tail[b - |head|] in tail;
      }
    }
  }

  lemma NumeralIsOneLine(n: int)
    ensures OneLine(Numeral(n))
  {
    DecimalIsStripped(if n < 0 then -n else n);
    hide Decimal;
  }

  lemma SourceIsOneLine(m: PackageMetadata)
    requires OneLine(m.sourcePackage) && OneLine(m.sourceVersion) && SourceOf(m).Some?
    ensures OneLine(SourceOf(m).value)
  {
  }

  lemma OneLineHasNoRest(value: string)
    requires OneLine(value)
    ensures NoBlankRest(value)
  {
    hide Split;
    SplitOneLine(value);
  }

  lemma OptionalAt(m: PackageMetadata, p: string -> bool)
    requires AllOptional(Optionals(m), p)
    ensures m.homepage.Some? ==> p(m.homepage.value)
    ensures m.maintainer.Some? ==> p(m.maintainer.value)
    ensures m.depends.Some? ==> p(m.depends.value)
    ensures m.provided.Some? ==> p(m.provided.value)
    ensures m.section.Some? ==> p(m.section.value)
    ensures m.priority.Some? ==> p(m.priority.value)
  {
    var os := Optionals(m);
    assert os[0] in os && os[1] in os && os[2] in os && os[3] in os && os[4] in os && os[5] in os;
  }

  /** Every value that is written is a stored one, the size and the source aside, which are on one line. */
  lemma WrittenValue(m: PackageMetadata, j: nat)
    requires GoodFields(m) && j < |KEYS| && Values(m)[j].Some?
    requires OneLine(m.sourcePackage) && OneLine(m.sourceVersion)
    ensures var v := Values(m)[j].value; if j == 5 || j == 6 then OneLine(v) else StoredValue(v)
  {
    hide Values, Numeral, StoredValue, OneLine, SourceOf, Optionals;
    ValuesOf(m);
    OptionalAt(m, Stated);
    NumeralIsOneLine(m.sizeBytes);
    if SourceOf(m).Some? {
      SourceIsOneLine(m);
    }
  }

  lemma WrittenField(m: PackageMetadata, f: Field)
    requires GoodFields(m) && OneLine(m.sourcePackage) && OneLine(m.sourceVersion) && f in Written(m)
    ensures NoBlankRest(f.value) && GoodName(f.name)
  {
    hide Values, Written, GoodFields, GoodName, NoBlankRest, OneLine, StoredValue;
    WrittenFields(m);
    KeysAreGood();
    var j :| 0 <= j < |KEYS| && Values(m)[j].Some? && f == Field(KEYS[j], Values(m)[j].value);
    assert KEYS[j] in KEYS;
    WrittenValue(m, j);
    if j == 5 || j == 6 {
      OneLineHasNoRest(f.value);
    } else {
      StoredTrim(f.value);
    }
  }

  /** The stanza with every continuation line marked by a blank. */
  function Marked(m: PackageMetadata): string {
    JoinLines(AllLines(Written(m)))
  }

  lemma WrittenIsSomething(m: PackageMetadata)
    ensures Written(m) != [] && Distinct(Written(m))
  {
    KeysDiffer();
    KnownIsDistinct(KEYS, Values(m), 0);
    assert Values(m)[0] == Some(m.packageName);
  }

  lemma MarkedIsRead(m: PackageMetadata)
    requires GoodFields(m) && OneLine(m.sourcePackage) && OneLine(m.sourceVersion)
    ensures Blocks(Marked(m)) == [AllLines(Written(m))]
    ensures Packages.FieldsOf(AllLines(Written(m))) == TrimAll(Written(m))
  {
    hide Written, GoodFields, Distinct, GoodName, NoBlankRest, FieldLines, OneLine, Blocks, JoinLines, Packages.FieldsOf;
    var fields := Written(m);
    WrittenIsSomething(m);
    forall f | f in fields
      ensures NoBlankRest(f.value) && GoodName(f.name)
    {
      WrittenField(m, f);
    }
    StanzaIsOneBlock(fields);
    StanzaIsRead(fields);
  }

  lemma SingleLineValue(m: PackageMetadata, j: nat)
    requires SingleLines(m) && j < 13 && Values(m)[j].Some?
    ensures OneLine(Values(m)[j].value)
  {
    hide Values, Numeral, SourceOf, OneLine, Optionals;
    ValuesOf(m);
    OptionalAt(m, OneLine);
    NumeralIsOneLine(m.sizeBytes);
    if SourceOf(m).Some? {
      SourceIsOneLine(m);
    }
  }

  lemma DescriptionPiece(f: Field)
    requires f.name == "Description"
    ensures Piece(f) == JoinLines(FieldLines(f))
  {
    hide JoinLines, FieldLines;
  }

  /** On single lines the stanza that is written is the marked one. */
  lemma SingleLinesAreMarked(m: PackageMetadata)
    requires SingleLines(m)
    ensures Formatted(m) == Marked(m)
  {
    hide Written, Values, Formatted, SingleLines, Piece, FieldLines, JoinLines, OneLine;
    WrittenFields(m);
    KeysAreGood();
    var fields := Written(m);
    forall f | f in fields
      ensures Piece(f) == JoinLines(FieldLines(f))
    {
      var j :| 0 <= j < |KEYS| && Values(m)[j].Some? && f == Field(KEYS[j], Values(m)[j].value);
      if j < 13 {
        SingleLineValue(m, j);
        OneLinePiece(f);
      } else {
        DescriptionPiece(f);
      }
    }
    PiecesAreLines(fields);
  }

  // ----- the values that are read -----

  function TrimOptional(value: Option<string>): Option<string> {
    if value.Some? then Some(Trim(value.value)) else None
  }

  function TrimValues(values: seq<Option<string>>): (r: seq<Option<string>>)
    ensures |r| == |values|
  {
    seq(|values|, i requires 0 <= i < |values| => TrimOptional(values[i]))
  }

  lemma {:induction false} TrimKnown(keys: seq<string>, values: seq<Option<string>>, i: nat)
    requires i <= |keys| == |values|
    ensures TrimAll(Known(keys, values, i)) == Known(keys, TrimValues(values), i)
    decreases |keys| - i
  {
    hide Trim;
    if i < |keys| {
      TrimKnown(keys, values, i + 1);
      var head, tail := Optional(keys[i], values[i]), Known(keys, values, i + 1);
      assert TrimAll(head + tail) == TrimAll(head) + TrimAll(tail);
      assert TrimAll(head) == Optional(keys[i], TrimValues(values)[i]);
    }
  }

  lemma FindTrimmed(keys: seq<string>, values: seq<Option<string>>, j: nat)
    requires DistinctKeys(keys) && j < |keys| == |values|
    ensures Find(TrimAll(Known(keys, values, 0)), keys[j]) == TrimOptional(values[j])
  {
    hide DistinctKeys, Known, Find, TrimAll, TrimOptional;
    TrimKnown(keys, values, 0);
    FindKnown(keys, TrimValues(values), [], 0, j);
    var fields := Known(keys, TrimValues(values), 0);
    assert fields + [] == fields;
  }

  lemma ReadValue(m: PackageMetadata, j: nat)
    requires j < |KEYS|
    ensures Find(TrimAll(Written(m)), KEYS[j]) == TrimOptional(Values(m)[j])
  {
    KeysAreGood();
    hide KEYS, Values, DistinctKeys, Known, Find, TrimAll, TrimOptional;
    FindTrimmed(KEYS, Values(m), j);
  }

  lemma ReadOptional(value: Option<string>)
    requires value.Some? ==> Stated(value.value)
    ensures OrNone(TrimOptional(value)) == value
  {
    hide Trim, StoredValue;
    if value.Some? {
      StoredTrim(value.value);
    }
  }

  lemma ReadSize(n: int)
    requires n >= 0
    ensures ParseInt(Strip(Trim(Numeral(n)))) == Some(n)
  {
    hide Trim, Strip, ParseInt, Decimal;
    NumeralIsOneLine(n);
    OneLineTrim(Numeral(n));
    DecimalIsStripped(n);
    NumeralIsRead(n, Decimal(n));
  }

  lemma ReadSource(m: PackageMetadata)
    requires OneLine(m.sourcePackage) && OneLine(m.sourceVersion)
    ensures InferSource(TrimOptional(SourceOf(m)), m.packageName, m.version)
            == InferSource(SourceOf(m), m.packageName, m.version)
  {
    hide OneLine, Trim, SourceOf, Strip, MatchSource, Stripped, Blank;
    if SourceOf(m).Some? {
      var s := SourceOf(m).value;
      SourceIsOneLine(m);
      OneLineTrim(s);
      StripIsStripped(s);
      StripIsStripped(Strip(s));
    }
  }

  /** What a written stanza is read as: the metadata with the source as it can be told. */
  function Reread(m: PackageMetadata): PackageMetadata {
    var (name, version) := InferSource(SourceOf(m), m.packageName, m.version);
    m.(sourcePackage := name, sourceVersion := version)
  }

  lemma RequiredAreRead(m: PackageMetadata, fields: seq<Field>)
    requires GoodFields(m) && fields == TrimAll(Written(m))
    ensures Find(fields, "Package") == Some(m.packageName) && Find(fields, "Version") == Some(m.version)
    ensures Find(fields, "Architecture") == Some(m.architecture) && Find(fields, "Filename") == Some(m.filename)
    ensures Find(fields, "SHA256") == Some(m.sha256)
    ensures Find(fields, "Size").Some? && ParseInt(Strip(Find(fields, "Size").value)) == Some(m.sizeBytes)
  {
    hide Written, Values, TrimAll, Find, Trim, StoredValue, Numeral, ParseInt, Strip, AllOptional;
    ValuesOf(m);
    KeysAt();
    ReadValue(m, 0);
    ReadValue(m, 1);
    ReadValue(m, 2);
    ReadValue(m, 3);
    ReadValue(m, 4);
    ReadValue(m, 5);
    StoredTrim(m.packageName);
    StoredTrim(m.version);
    StoredTrim(m.architecture);
    StoredTrim(m.filename);
    StoredTrim(m.sha256);
    ReadSize(m.sizeBytes);
  }

  lemma OptionalsAreRead(m: PackageMetadata, fields: seq<Field>)
    requires GoodFields(m) && fields == TrimAll(Written(m))
    ensures OrNone(Find(fields, "Homepage")) == m.homepage && OrNone(Find(fields, "Maintainer")) == m.maintainer
    ensures OrNone(Find(fields, "Depends")) == m.depends && OrNone(Find(fields, "Provides")) == m.provided
    ensures OrNone(Find(fields, "Section")) == m.section && OrNone(Find(fields, "Priority")) == m.priority
    ensures OrNone(Find(fields, "Description")) == m.description
  {
    hide Written, Values, TrimAll, Find, Trim, OrNone, TrimOptional, StoredValue, Optionals;
    OptionalAt(m, Stated);
    ValuesOf(m);
    KeysAt();
    ReadValue(m, 7);
    ReadValue(m, 8);
    ReadValue(m, 9);
    ReadValue(m, 10);
    ReadValue(m, 11);
    ReadValue(m, 12);
    ReadValue(m, 13);
    ReadOptional(m.homepage);
    ReadOptional(m.maintainer);
    ReadOptional(m.depends);
    ReadOptional(m.provided);
    ReadOptional(m.section);
    ReadOptional(m.priority);
    ReadOptional(m.description);
  }

  lemma SourceIsRead(m: PackageMetadata, fields: seq<Field>)
    requires OneLine(m.sourcePackage) && OneLine(m.sourceVersion) && fields == TrimAll(Written(m))
    ensures InferSource(Find(fields, "Source"), m.packageName, m.version)
            == InferSource(SourceOf(m), m.packageName, m.version)
  {
    hide Written, Values, TrimAll, Find, SourceOf, InferSource, OneLine, TrimOptional;
    ValuesOf(m);
    KeysAt();
    ReadValue(m, 6);
    ReadSource(m);
  }

  lemma MetadataIsRead(m: PackageMetadata)
    requires GoodFields(m) && OneLine(m.sourcePackage) && OneLine(m.sourceVersion)
    ensures MetadataOf(TrimAll(Written(m))) == Some(Reread(m))
  {
    hide Written, TrimAll, Find, OrNone, SourceOf, InferSource, ParseInt, Strip, GoodFields, OneLine;
    var fields := TrimAll(Written(m));
    RequiredAreRead(m, fields);
    OptionalsAreRead(m, fields);
    SourceIsRead(m, fields);
    assert m.sizeBytes >= 0 by {
      SizeIsGood(m);
    }
  }

  lemma SizeIsGood(m: PackageMetadata)
    requires GoodFields(m)
    ensures m.sizeBytes >= 0
  {
  }

  /** A stanza whose continuation lines are all marked is read back, with the source as it can be told. */
  lemma ReadMarked(m: PackageMetadata)
    requires GoodFields(m) && OneLine(m.sourcePackage) && OneLine(m.sourceVersion)
    ensures AllMetadata(Blocks(Marked(m))) == [Reread(m)]
  {
    hide Blocks, Marked, Written, TrimAll, Packages.FieldsOf, MetadataOf, Reread, AllLines, GoodFields, OneLine;
    MarkedIsRead(m);
    MetadataIsRead(m);
    var blocks := [AllLines(Written(m))];
    assert blocks[..0] == [];
    assert AllMetadata(blocks) == AllMetadata([]) + [Reread(m)];
  }

  lemma ReadBack(m: PackageMetadata)
    requires SingleLines(m) && GoodFields(m)
    ensures AllMetadata(Blocks(Formatted(m))) == [Reread(m)]
  {
    hide Blocks, Marked, Formatted, AllMetadata, GoodFields, Reread, OneLine;
    SingleLinesAreMarked(m);
    ReadMarked(m);
  }

  lemma SourceIsToldExactly(m: PackageMetadata)
    ensures Reread(m) == m <==> GoodSource(m)
  {
    hide InferSource, MatchSource, Readable, Versioned;
    VersionedIsReadExactly(m.sourcePackage, m.sourceVersion, m.packageName, m.version);
    if m.sourcePackage != m.packageName {
      PlainIsReadExactly(m.sourcePackage, m.packageName, m.version);
    }
    NoSource(m.packageName, m.version);
  }

  lemma NoSource(packageName: string, version: string)
    ensures InferSource(None, packageName, version) == (packageName, version)
  {
  }
}
