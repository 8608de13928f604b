/** Whatever is read from a copyright file is well formed. */
module Dep5WellFormed {
  import opened Results
  import opened Lines
  import opened Stanzas
  import opened Dictionaries
  import opened Dep5Document
  import opened Dep5Parser
  import opened Dep5Kinds

  predicate GoodReading(r: Reading) {
    && GoodFields(r.fields)
    && (r.current.Some? ==> GoodKey(r.current.value) && GoodLines(r.lines) && AllOneLine(r.lines))
  }

  lemma {:induction false} PutIsGood(fields: seq<Field>, key: string, value: string)
    requires GoodFields(fields) && GoodField(Field(key, value))
    ensures GoodFields(Put(fields, key, value))
    ensures forall f :: f in Put(fields, key, value) ==> f in fields || f == Field(key, value)
  {
    hide GoodField;
    if fields != [] {
      var f, rest := fields[0], fields[1..];
      assert f in fields && forall x :: x in rest ==> x in fields;
      forall x | x in rest
        ensures x.name != f.name
      {
        var i :| 0 <= i < |rest| && rest[i] == x;
        assert fields[i + 1] == x;
      }
      assert GoodFields(rest);
      if f.name == key {
        OneMoreIsGood(Field(key, value), rest);
      } else {
        PutIsGood(rest, key, value);
        OneMoreIsGood(f, Put(rest, key, value));
      }
    }
  }

  lemma SavedIsGood(r: Reading)
    requires GoodReading(r)
    ensures GoodFields(Saved(r))
  {
    if r.current.Some? {
      SplitJoined(r.lines);
      hide GoodKey, GoodLines, Put, GoodFields;
      PutIsGood(r.fields, r.current.value, JoinLines(r.lines));
    }
  }

  lemma LowerKeyIsGood(name: string)
    requires OneLine(name) && ':' !in name
    ensures GoodKey(Lower(Strip(name)))
  {
    var s := Strip(name);
    StripIsStripped(name);
    hide Strip;
    forall i | 0 <= i < |s|
      ensures Lower(s)[i] != ':' && Lower(s)[i] != '\n' && ToLower(Lower(s)[i]) == Lower(s)[i]
    {
      assert s[i] in s;
    }
    assert Lower(Lower(s)) == Lower(s);
  }

  lemma MoreIsGood(r: Reading, line: string)
    requires GoodReading(r) && r.current.Some?
    requires OneLine(line) && (line == "" || !Blank(line))
    ensures GoodReading(r.(lines := r.lines + [line]))
  {
    hide GoodFields, GoodKey, GoodLines, OneLine, AllOneLine;
    MoreLines(r.lines, line);
  }

  lemma NewFieldIsGood(fields: seq<Field>, key: string, value: string)
    requires GoodFields(fields) && GoodKey(key) && OneLine(value) && Stripped(value)
    ensures GoodReading(Reading(fields, Some(key), [value]))
  {
    hide GoodFields, GoodKey, OneLine, Stripped;
    assert [value][1..] == [];
  }

  lemma LineIsGood(r: Reading, line: string)
    requires GoodReading(r) && OneLine(line) && !Blank(line)
    ensures GoodReading(ReadLine(r, line))
  {
    hide GoodReading, Saved, Blank, OneLine, GoodKey, Stripped, Strip, GoodFields;
    if IsContinuation(line) {
      RestIsGood(line);
      if r.current.Some? {
        DotIsGood(line[1..]);
        MoreIsGood(r, UndotLine(line[1..]));
      }
    } else if ':' in line {
      SavedIsGood(r);
      FieldLineIsGood(line);
      var c := ColonIndex(line);
      NewFieldIsGood(Saved(r), Lower(Strip(line[..c])), Strip(line[c + 1..]));
    } else if r.current.Some? {
      MoreIsGood(r, line);
    }
  }

  lemma DotIsGood(line: string)
    requires OneLine(line)
    ensures OneLine(UndotLine(line)) && (Blank(line) || UndotLine(line) == "" || !Blank(UndotLine(line)))
  {
  }

  lemma FieldLineIsGood(line: string)
    requires OneLine(line) && ':' in line
    ensures var c := ColonIndex(line);
            && GoodKey(Lower(Strip(line[..c])))
            && OneLine(Strip(line[c + 1..])) && Stripped(Strip(line[c + 1..]))
  {
    var c := ColonIndex(line);
    hide Strip, GoodKey;
    assert forall x :: x in line[..c] ==> x in line;
    assert forall x :: x in line[c + 1..] ==> x in line;
    LowerKeyIsGood(line[..c]);
    StripIsStripped(line[c + 1..]);
  }

  lemma RestIsGood(line: string)
    requires IsContinuation(line) && OneLine(line) && !Blank(line)
    ensures !Blank(line[1..]) && OneLine(line[1..])
  {
  }

  lemma MoreLines(lines: seq<string>, line: string)
    requires OneLine(line) && (line == "" || !Blank(line))
    ensures GoodLines(lines) && AllOneLine(lines) ==> GoodLines(lines + [line]) && AllOneLine(lines + [line])
  {
    hide Blank, OneLine;
    assert lines != [] ==> (lines + [line])[1..] == lines[1..] + [line];
  }

  lemma {:induction false} FieldsAreGood(lines: seq<string>)
    requires NoBlank(lines)
    ensures GoodReading(ReadLines(START, lines))
  {
    hide GoodReading, ReadLine, Blank, OneLine;
    if lines == [] {
      NothingReadIsGood();
    } else {
      var n := |lines| - 1;
      assert lines[n] in lines && forall l :: l in lines[..n] ==> l in lines;
      FieldsAreGood(lines[..n]);
      LineIsGood(ReadLines(START, lines[..n]), lines[n]);
    }
  }

  lemma NothingReadIsGood()
    ensures GoodReading(START)
  {
  }

  lemma ReadParagraphsAreGood(text: string)
    ensures forall p :: p in AllFields(Blocks(text)) ==> GoodFields(p)
  {
    BlocksOfText(text);
    var blocks := Blocks(text);
    hide GoodFields, FieldsOf, NoBlank, Blocks, Split;
    forall p | p in AllFields(blocks)
      ensures GoodFields(p)
    {
      var i :| 0 <= i < |blocks| && FieldsOf(blocks[i]) == p;
      assert blocks[i] in blocks;
      BlockIsGood(blocks[i]);
    }
  }

  lemma BlockIsGood(block: seq<string>)
    requires NoBlank(block)
    ensures GoodFields(FieldsOf(block))
  {
    FieldsAreGood(block);
    hide GoodReading, ReadLines, GoodFields, Saved, NoBlank;
    SavedIsGood(ReadLines(START, block));
  }

  lemma LicenseTextIsGood(value: string)
    requires GoodValue(value)
    ensures var lines := Split(value);
            && GoodName(Strip(lines[0]))
            && (|lines| > 1 ==> Split(JoinLines(lines[1..])) == lines[1..])
            && GoodRest(Split(JoinLines(lines[1..]))) && GoodRest(Split(""))
  {
    SplitIsLines(value);
    LicenseLinesAreGood(Split(value));
  }

  lemma LicenseLinesAreGood(lines: seq<string>)
    requires GoodLines(lines) && AllOneLine(lines)
    ensures GoodName(Strip(lines[0]))
    ensures |lines| > 1 ==> Split(JoinLines(lines[1..])) == lines[1..]
    ensures GoodRest(Split(JoinLines(lines[1..]))) && GoodRest(Split(""))
  {
    hide Strip, Split, Blank, OneLine, Stripped, GoodName;
    assert lines[0] in lines && forall l :: l in lines[1..] ==> l in lines;
    NameIsGood(lines[0]);
    NoTextIsGood();
    if |lines| > 1 {
      SplitJoined(lines[1..]);
    } else {
      assert JoinLines(lines[1..]) == "";
    }
  }

  lemma NameIsGood(line: string)
    requires OneLine(line)
    ensures GoodName(Strip(line))
  {
    StripIsStripped(line);
    hide Strip;
  }

  lemma NoTextIsGood()
    ensures Split("") == [""] && GoodRest(Split(""))
  {
  }

  lemma ReadHeaderIsGood(fields: seq<Field>)
    requires GoodFields(fields) && HeaderOf(fields).Ok?
    ensures GoodHeader(HeaderOf(fields).value)
  {
    ExtraIsGood(fields, HEADER_KEYS);
    FindIsGood(fields, "format");
    FindIsGood(fields, "upstream-name");
    FindIsGood(fields, "upstream-contact");
    FindIsGood(fields, "source");
    FindIsGood(fields, "comment");
    hide Find, Extra, GoodFields, NoneNamed, GoodValue;
  }

  lemma ReadFilesAreGood(fields: seq<Field>, index: nat)
    requires GoodFields(fields) && FilesOf(fields, index).Ok?
    ensures GoodFiles(FilesOf(fields, index).value)
  {
    ExtraIsGood(fields, FILES_KEYS);
    FindIsGood(fields, "copyright");
    FindIsGood(fields, "license");
    FindIsGood(fields, "comment");
    WordsAreWords(Find(fields, "files").value, "");
    LicenseTextIsGood(Find(fields, "license").value);
    hide Find, Extra, GoodFields, NoneNamed, GoodValue, GoodName, GoodRest, AllWords, Split, Strip, JoinLines;
  }

  lemma ReadLicenseIsGood(fields: seq<Field>)
    requires GoodFields(fields) && Find(fields, "license").Some? && Find(fields, "files").None?
    ensures GoodLicense(LicenseOf(fields))
  {
    ExtraIsGood(fields, LICENSE_KEYS);
    FindIsGood(fields, "license");
    FindIsGood(fields, "comment");
    LicenseTextIsGood(Find(fields, "license").value);
    NotFound(fields, "files");
    var extra := Extra(fields, LICENSE_KEYS);
    assert NoneNamed(extra, ["files"] + LICENSE_KEYS);
    hide Find, Extra, GoodFields, NoneNamed, GoodValue, GoodName, GoodRest, Split, Strip, JoinLines;
  }

  lemma {:induction false} NotFound(fields: seq<Field>, key: string)
    requires Find(fields, key).None?
    ensures forall f :: f in fields ==> f.name != key
  {
    if fields != [] {
      NotFound(fields[1..], key);
    }
  }

  lemma {:induction false} ReadBodyIsGood(paragraphs: seq<seq<Field>>, index: nat)
    requires forall p :: p in paragraphs ==> GoodFields(p)
    ensures var body := BodyOf(paragraphs, index);
            body.Ok? ==>
              && (forall p :: p in body.value.files ==> GoodFiles(p))
              && (forall p :: p in body.value.licenses ==> GoodLicense(p))
  {
    hide Find, FilesOf, LicenseOf, GoodFields, GoodFiles, GoodLicense;
    if paragraphs != [] {
      var fields := paragraphs[0];
      assert fields in paragraphs && forall p :: p in paragraphs[1..] ==> p in paragraphs;
      ReadBodyIsGood(paragraphs[1..], index + 1);
      if FilesOf(fields, index).Ok? {
        ReadFilesAreGood(fields, index);
      }
      if Find(fields, "files").None? && Find(fields, "license").Some? {
        ReadLicenseIsGood(fields);
      }
    }
  }

  lemma ReadIsGood(text: string)
    requires Read(text).Ok?
    ensures GoodDocument(Read(text).value)
  {
    var all := AllFields(Blocks(text));
    ReadParagraphsAreGood(text);
    hide GoodFields, AllFields, Blocks, GoodHeader, GoodFiles, GoodLicense, HeaderOf, BodyOf;
    assert all[0] in all && forall p :: p in all[1..] ==> p in all;
    ReadHeaderIsGood(all[0]);
    ReadBodyIsGood(all[1..], 1);
  }
}
