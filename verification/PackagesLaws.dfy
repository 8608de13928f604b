/** What metadata is read from the stanzas of an index, told from their lines and fields. */
module PackagesLaws {
  import opened Results
  import opened Letters
  import opened Lines
  import opened LineLaws
  import opened Stanzas
  import opened StanzaLaws
  import opened Dictionaries
  import opened DictionaryLaws
  import opened Decimals
  import opened NumberLaws
  import opened SourceField
  import opened Packages

  // ----- fields -----

  predicate AllIndented(lines: seq<string>) {
    forall i :: 0 <= i < |lines| ==> Indented(lines[i])
  }

  lemma {:induction false} ReadInTwo(a: seq<string>, b: seq<string>, r: Reading)
    requires ReadLines(START, a) == r
    ensures ReadLines(START, a + b) == if b == [] then r else ReadLine(ReadLines(START, a + b[..|b| - 1]), b[|b| - 1])
  {
    hide ReadLine;
    if b == [] {
      assert a + b == a;
    } else {
      assert (a + b)[..|a + b| - 1] == a + b[..|b| - 1];
    }
  }

  lemma {:induction false} IndentedIsGathered(before: seq<string>, r: Reading, more: seq<string>)
    requires ReadLines(START, before) == r && AllIndented(more)
    ensures ReadLines(START, before + more)
            == if r.key.Some? then r.(lines := r.lines + Continuations(more)) else r
  {
    hide ReadLines;
    ReadInTwo(before, more, r);
    if more != [] {
      StartsIs(more[|more| - 1]);
      IndentedIsGathered(before, r, more[..|more| - 1]);
    } else {
      assert r.lines + [] == r.lines;
    }
  }

  /**
   * Every stanza is read line by unindented line. One with a colon and the indented lines after it assign
   * to the name before the first colon; one without a colon and the lines after it say nothing.
   */
  lemma OneMoreField(before: seq<string>, name: string, text: string, more: seq<string>)
    requires !Indented(name + ":") && ':' !in name && AllIndented(more)
    ensures Packages.FieldsOf(before + [name + ":" + text] + more)
            == Put(Packages.FieldsOf(before), name, JoinLines([Strip(text)] + Continuations(more)))
  {
    hide ReadLines, Put, JoinLines, Strip;
    var header := name + ":" + text;
    assert header[|name|] == ':' && header[..|name|] == name && header[|name| + 1..] == text;
    ColonAt(header, |name|);
    assert header[0] == (name + ":")[0];
    StartsIs(header);
    var r := ReadLines(START, before);
    hide ColonIndex;
    ReadInTwo(before, [header], r);
    assert before + [header][..0] == before;
    IndentedIsGathered(before + [header], ReadLine(r, header), more);
  }

  lemma OneMoreLine(before: seq<string>, line: string, more: seq<string>)
    requires !Indented(line) && ':' !in line && AllIndented(more)
    ensures Packages.FieldsOf(before + [line] + more) == Packages.FieldsOf(before)
  {
    hide ReadLines, Put, JoinLines;
    StartsIs(line);
    var r := ReadLines(START, before);
    ReadInTwo(before, [line], r);
    assert before + [line][..0] == before;
    IndentedIsGathered(before + [line], ReadLine(r, line), more);
  }

  lemma OnlyIndented(more: seq<string>)
    requires AllIndented(more)
    ensures Packages.FieldsOf(more) == []
  {
    IndentedIsGathered([], START, more);
    assert [] + more == more;
  }

  // ----- metadata -----

  /** An absent field and an empty one both say nothing. */
  ghost predicate MayHold(fields: seq<Field>, key: string, value: Option<string>) {
    if value.Some? then value.value != "" && Holds(fields, key, value.value)
    else Lacks(fields, key) || Holds(fields, key, "")
  }

  /** A value that tells a name and perhaps a version: of all ways to split it, the one with the shortest name. */
  ghost predicate TellsOf(value: string, version: string, name: string, sourceVersion: string) {
    if exists n: string, v: string :: Splits(value, n, v) then
      && (exists v: string :: Splits(value, name, v) && sourceVersion == Strip(v))
      && forall n: string, v: string :: Splits(value, n, v) ==> |name| <= |n|
    else name == value && sourceVersion == version
  }

  /** Without a source field, or with a blank one, the source is the package itself. */
  ghost predicate TellsSource(fields: seq<Field>, packageName: string, version: string, name: string, sourceVersion: string) {
    || ((Lacks(fields, "Source") || exists value: string :: Holds(fields, "Source", value) && OnlySpacing(value))
        && name == packageName && sourceVersion == version)
    || (exists value: string :: Holds(fields, "Source", value) && !OnlySpacing(value)
                                && TellsOf(Strip(value), version, name, sourceVersion))
  }

  /** The fields of a stanza say this metadata. */
  ghost predicate SaysMetadata(fields: seq<Field>, m: PackageMetadata) {
    && Holds(fields, "Package", m.packageName) && Holds(fields, "Version", m.version)
    && Holds(fields, "Architecture", m.architecture) && Holds(fields, "Filename", m.filename)
    && Holds(fields, "SHA256", m.sha256)
    && m.sizeBytes >= 0 && (exists size: string :: Holds(fields, "Size", size) && Writes(Strip(size), m.sizeBytes))
    && TellsSource(fields, m.packageName, m.version, m.sourcePackage, m.sourceVersion)
    && MayHold(fields, "Homepage", m.homepage) && MayHold(fields, "Maintainer", m.maintainer)
    && MayHold(fields, "Depends", m.depends) && MayHold(fields, "Provides", m.provided)
    && MayHold(fields, "Section", m.section) && MayHold(fields, "Priority", m.priority)
    && MayHold(fields, "Description", m.description)
  }

  lemma MayHoldIs(fields: seq<Field>, key: string, value: Option<string>)
    ensures MayHold(fields, key, value) <==> OrNone(Find(fields, key)) == value
  {
    FindHolds(fields, key);
    hide Holds, Lacks, Find;
  }

  /** The version is what is left when the name is known. */
  lemma VersionIsRest(value: string, name: string, v: string, w: string)
    requires Splits(value, name, v) && Splits(value, name, w)
    ensures v == w
  {
    var b :| Blank(b) && value == name + b + "(" + v + ")";
    var c :| Blank(c) && value == name + c + "(" + w + ")";
    assert value[|name| + |b|] == '(' && value[|name| + |c|] == '(';
    assert forall i :: 0 <= i < |b| ==> value[|name| + i] == b[i];
    assert forall i :: 0 <= i < |c| ==> value[|name| + i] == c[i];
    assert !IsSpace('(');
    var k := |name| + |b| + 1;
    assert v == value[k..|value| - 1];
  }

  lemma SplitBegins(value: string, name: string, version: string)
    requires Splits(value, name, version)
    ensures |name| <= |value| && name == value[..|name|]
  {
    hide OneLine;
  }

  lemma TellsOfIs(value: string, version: string, name: string, sourceVersion: string)
    requires Stripped(value) && value != ""
    ensures TellsOf(value, version, name, sourceVersion) <==>
            match MatchSource(value)
            case Some((n, v)) => name == Strip(n) && sourceVersion == Strip(v)
            case None => name == value && sourceVersion == version
  {
    hide Strip, MatchSource, Splits, Stripped;
    forall n: string, v: string | Splits(value, n, v)
      ensures MatchSource(value).Some? && |MatchSource(value).value.0| <= |n|
    {
      MatchIsShortest(value, n, v);
    }
    if MatchSource(value).Some? {
      var (n, v) := MatchSource(value).value;
      MatchSplits(value);
      StripIsStripped(n);
      SplitBegins(value, n, v);
      if TellsOf(value, version, name, sourceVersion) {
        var w: string :| Splits(value, name, w) && sourceVersion == Strip(w);
        SplitBegins(value, name, w);
        VersionIsRest(value, name, v, w);
      }
    }
  }

  lemma TellsSourceIs(fields: seq<Field>, packageName: string, version: string, name: string, sourceVersion: string)
    ensures TellsSource(fields, packageName, version, name, sourceVersion)
            <==> InferSource(Find(fields, "Source"), packageName, version) == (name, sourceVersion)
  {
    hide Holds, Lacks, Find, Strip, MatchSource, Blank, OnlySpacing, TellsOf, Stripped;
    FindHolds(fields, "Source");
    var field := Find(fields, "Source");
    if field.Some? {
      BlankIs(field.value);
      StripIsStripped(field.value);
      assert Holds(fields, "Source", field.value);
      if !OnlySpacing(field.value) {
        TellsOfIs(Strip(field.value), version, name, sourceVersion);
      }
    }
  }

  lemma SizeIs(fields: seq<Field>, n: int)
    ensures (exists size: string :: Holds(fields, "Size", size) && Writes(Strip(size), n))
            <==> Find(fields, "Size").Some? && ParseInt(Strip(Find(fields, "Size").value)) == Some(n)
  {
    FindHolds(fields, "Size");
    hide Holds, Lacks, Find, ParseInt, Strip, Writes;
    if Find(fields, "Size").Some? {
      StrippedIntegerIs(Find(fields, "Size").value, n);
      assert Holds(fields, "Size", Find(fields, "Size").value);
    }
  }

  /** A stanza gives metadata exactly if its fields say it. */
  lemma MetadataIs(fields: seq<Field>, m: PackageMetadata)
    ensures MetadataOf(fields) == Some(m) <==> SaysMetadata(fields, m)
  {
    hide Holds, Lacks, Find, ParseInt, Strip, Writes, InferSource, TellsSource, MayHold, OrNone;
    FindHolds(fields, "Package");
    FindHolds(fields, "Version");
    FindHolds(fields, "Architecture");
    FindHolds(fields, "Filename");
    FindHolds(fields, "SHA256");
    SizeIs(fields, m.sizeBytes);
    TellsSourceIs(fields, m.packageName, m.version, m.sourcePackage, m.sourceVersion);
    MayHoldIs(fields, "Homepage", m.homepage);
    MayHoldIs(fields, "Maintainer", m.maintainer);
    MayHoldIs(fields, "Depends", m.depends);
    MayHoldIs(fields, "Provides", m.provided);
    MayHoldIs(fields, "Section", m.section);
    MayHoldIs(fields, "Priority", m.priority);
    MayHoldIs(fields, "Description", m.description);
  }

  /** The metadata of an index are those of its stanzas, in order; what says none is left out. */
  lemma IndexIs(blocks: seq<seq<string>>, block: seq<string>, m: PackageMetadata)
    ensures AllMetadata([]) == []
    ensures SaysMetadata(Packages.FieldsOf(block), m) ==> AllMetadata(blocks + [block]) == AllMetadata(blocks) + [m]
    ensures (forall x :: !SaysMetadata(Packages.FieldsOf(block), x)) ==> AllMetadata(blocks + [block]) == AllMetadata(blocks)
  {
    hide MetadataOf, SaysMetadata, Packages.FieldsOf;
    assert (blocks + [block])[..|blocks|] == blocks;
    MetadataIs(Packages.FieldsOf(block), m);
    var o := MetadataOf(Packages.FieldsOf(block));
    if o.Some? {
      MetadataIs(Packages.FieldsOf(block), o.value);
    }
  }
}
