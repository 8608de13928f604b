/** What metadata can be read from any text. */
module PackagesStored {
  import opened Results
  import opened Lines
  import opened Stanzas
  import opened Dictionaries
  import opened Decimals
  import opened SourceField
  import opened Packages
  import opened PackagesRoundTrip

  predicate StoredFields(fields: seq<Field>) {
    forall f :: f in fields ==> StoredLines(Split(f.value))
  }

  predicate StoredReading(r: Reading) {
    StoredFields(r.fields) && (r.key.Some? ==> StoredLines(r.lines))
  }

  lemma {:induction false} PutIsStored(fields: seq<Field>, key: string, value: string)
    requires StoredFields(fields) && StoredLines(Split(value))
    ensures StoredFields(Put(fields, key, value))
  {
    hide StoredLines, Split;
    if fields != [] {
      assert fields[0] in fields && forall f :: f in fields[1..] ==> f in fields;
      PutIsStored(fields[1..], key, value);
    }
  }

  lemma SavedIsStored(r: Reading)
    requires StoredReading(r)
    ensures StoredFields(Packages.Saved(r))
  {
    if r.key.Some? {
      SplitJoined(r.lines);
      hide StoredLines, StoredFields, Put, JoinLines;
      PutIsStored(r.fields, r.key.value, JoinLines(r.lines));
    }
  }

  lemma LineIsStored(r: Reading, line: string)
    requires StoredReading(r) && OneLine(line) && !Blank(line)
    ensures StoredReading(ReadLine(r, line))
  {
    hide StoredFields, Strip, Put, JoinLines;
    if IsContinuation(line) {
      if r.key.Some? {
        MoreIsStored(r.lines, line[1..]);
      }
    } else {
      SavedIsStored(r);
      if ':' in line {
        FirstIsStored(line[ColonIndex(line) + 1..]);
      }
    }
    hide StoredLines;
  }

  lemma MoreIsStored(lines: seq<string>, line: string)
    requires StoredLines(lines) && OneLine(line) && !Blank(line)
    ensures StoredLines(lines + [line])
  {
    hide Blank, OneLine;
  }

  lemma FirstIsStored(value: string)
    requires OneLine(value)
    ensures StoredLines([Strip(value)])
  {
    StripIsStripped(value);
    hide Strip;
  }

  lemma {:induction false} LinesAreStored(lines: seq<string>)
    requires NoBlank(lines)
    ensures StoredReading(ReadLines(Packages.START, lines))
  {
    hide StoredLines, ReadLine, Blank, OneLine;
    if lines != [] {
      var n := |lines| - 1;
      assert lines[n] in lines && forall l :: l in lines[..n] ==> l in lines;
      hide StoredReading;
      LinesAreStored(lines[..n]);
      LineIsStored(ReadLines(Packages.START, lines[..n]), lines[n]);
    }
  }

  lemma BlockIsStored(block: seq<string>)
    requires NoBlank(block)
    ensures StoredFields(Packages.FieldsOf(block))
  {
    hide StoredFields, ReadLines, NoBlank, Packages.Saved, StoredReading;
    LinesAreStored(block);
    SavedIsStored(ReadLines(Packages.START, block));
  }

  lemma {:induction false} FindIsStored(fields: seq<Field>, key: string)
    requires StoredFields(fields)
    ensures Find(fields, key).Some? ==> StoredLines(Split(Find(fields, key).value))
  {
    hide StoredLines, Split;
    if fields != [] {
      assert fields[0] in fields && forall f :: f in fields[1..] ==> f in fields;
      FindIsStored(fields[1..], key);
    }
  }

  lemma StoredOptional(fields: seq<Field>, key: string)
    requires StoredFields(fields)
    ensures OrNone(Find(fields, key)).Some? ==> Stated(OrNone(Find(fields, key)).value)
  {
    FindIsStored(fields, key);
    hide StoredLines, StoredFields, Find, Split;
  }

  lemma WhereMetadataComesFrom(fields: seq<Field>)
    requires MetadataOf(fields).Some?
    ensures var m := MetadataOf(fields).value;
            && Find(fields, "Package") == Some(m.packageName) && Find(fields, "Version") == Some(m.version)
            && Find(fields, "Architecture") == Some(m.architecture) && Find(fields, "Filename") == Some(m.filename)
            && Find(fields, "SHA256") == Some(m.sha256) && m.sizeBytes >= 0
            && m.homepage == OrNone(Find(fields, "Homepage")) && m.maintainer == OrNone(Find(fields, "Maintainer"))
            && m.depends == OrNone(Find(fields, "Depends")) && m.provided == OrNone(Find(fields, "Provides"))
            && m.section == OrNone(Find(fields, "Section")) && m.priority == OrNone(Find(fields, "Priority"))
            && m.description == OrNone(Find(fields, "Description"))
  {
    hide Find, OrNone, InferSource, ParseInt, Strip;
  }

  lemma MetadataIsGood(fields: seq<Field>)
    requires StoredFields(fields) && MetadataOf(fields).Some?
    ensures GoodFields(MetadataOf(fields).value)
  {
    hide MetadataOf, StoredFields, Find, OrNone, Stated, StoredLines, Split;
    var m := MetadataOf(fields).value;
    WhereMetadataComesFrom(fields);
    FindIsStored(fields, "Package");
    FindIsStored(fields, "Version");
    FindIsStored(fields, "Architecture");
    FindIsStored(fields, "Filename");
    FindIsStored(fields, "SHA256");
    StoredOptional(fields, "Homepage");
    StoredOptional(fields, "Maintainer");
    StoredOptional(fields, "Depends");
    StoredOptional(fields, "Provides");
    StoredOptional(fields, "Section");
    StoredOptional(fields, "Priority");
    StoredOptional(fields, "Description");
    var os := Optionals(m);
    assert forall v :: v in os && v.Some? ==> Stated(v.value);
  }

  lemma {:induction false} AllMetadataIsGood(blocks: seq<seq<string>>, m: PackageMetadata)
    requires forall b :: b in blocks ==> NoBlank(b)
    requires m in AllMetadata(blocks)
    ensures GoodFields(m)
  {
    hide NoBlank, MetadataOf, Packages.FieldsOf, GoodFields, StoredFields;
    var n := |blocks| - 1;
    assert blocks[n] in blocks && forall b :: b in blocks[..n] ==> b in blocks;
    if m in AllMetadata(blocks[..n]) {
      AllMetadataIsGood(blocks[..n], m);
    } else {
      BlockIsStored(blocks[n]);
      MetadataIsGood(Packages.FieldsOf(blocks[n]));
    }
  }

  /** Whatever metadata is read from a text has good fields. */
  lemma ReadIsGood(text: string, m: PackageMetadata)
    requires m in AllMetadata(Blocks(text))
    ensures GoodFields(m)
  {
    BlocksOfText(text);
    hide Blocks, NoBlank, AllMetadata, GoodFields;
    AllMetadataIsGood(Blocks(text), m);
  }
}
