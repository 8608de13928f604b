/** Values without lone dots, and the texts they are read from. */
module Dep5Dots {
  import opened Results
  import opened Lines
  import opened Stanzas
  import opened Dictionaries
  import opened Dep5Document
  import opened Dep5Parser
  import opened Dep5Kinds
  import opened Dep5WellFormed

  // ----- lone dots -----

  predicate DotFreeValue(value: string) {
    "." !in Split(value)[1..]
  }

  predicate DotFreeOptional(value: Option<string>) {
    value.Some? ==> DotFreeValue(value.value)
  }

  predicate DotFreeText(text: Option<string>) {
    text.Some? ==> "." !in Split(text.value)
  }

  predicate DotFreeFields(fields: seq<Field>) {
    forall f :: f in fields ==> DotFreeValue(f.value)
  }

  predicate DotFreeHeader(h: Header) {
    && DotFreeValue(h.formatUrl) && DotFreeOptional(h.upstreamName) && DotFreeOptional(h.upstreamContact)
    && DotFreeOptional(h.source) && DotFreeOptional(h.comment) && DotFreeFields(h.extra)
  }

  predicate DotFreeFiles(p: FilesParagraph) {
    && DotFreeValue(p.copyright) && DotFreeText(p.licenseText)
    && DotFreeOptional(p.comment) && DotFreeFields(p.extra)
  }

  predicate DotFreeLicense(p: LicenseParagraph) {
    DotFreeText(Some(p.licenseText)) && DotFreeOptional(p.comment) && DotFreeFields(p.extra)
  }

  /** No value has a line that is a lone dot, its first line aside. */
  predicate DotFree(d: Document) {
    && DotFreeHeader(d.header)
    && (forall p :: p in d.files ==> DotFreeFiles(p))
    && (forall p :: p in d.licenses ==> DotFreeLicense(p))
  }

  lemma UndotRestIsSame(lines: seq<string>)
    ensures UndotRest(lines) == lines <==> "." !in lines
  {
    if "." in lines {
      var i :| 0 <= i < |lines| && lines[i] == ".";
      assert UndotRest(lines)[i] == "";
    }
  }

  lemma UndotValueIsSame(value: string)
    ensures UndotValue(value) == value <==> DotFreeValue(value)
  {
    var parts := Split(value);
    UndotSplits(value);
    SplitIsLines(value);
    UndotRestIsSame(parts[1..]);
    assert parts == [parts[0]] + parts[1..];
    assert UndotLines(parts)[1..] == UndotRest(parts[1..]);
  }

  lemma UndotTextIsSame(text: Option<string>)
    ensures UndotOptionalText(text) == text <==> DotFreeText(text)
  {
    if text.Some? {
      UndotTextSplits(text.value);
      SplitIsLines(text.value);
      UndotRestIsSame(Split(text.value));
    }
  }

  lemma UndotOptionalIsSame(value: Option<string>)
    ensures UndotOptional(value) == value <==> DotFreeOptional(value)
  {
    if value.Some? {
      UndotValueIsSame(value.value);
    }
  }

  lemma UndotFieldsAreSame(fields: seq<Field>)
    ensures UndotFields(fields) == fields <==> DotFreeFields(fields)
  {
    hide UndotValue, DotFreeValue;
    var u := UndotFields(fields);
    forall i | 0 <= i < |fields|
      ensures u[i] == fields[i] <==> DotFreeValue(fields[i].value)
    {
      UndotValueIsSame(fields[i].value);
    }
  }

  lemma UndotHeaderIsSame(h: Header)
    ensures UndotHeader(h) == h <==> DotFreeHeader(h)
  {
    hide UndotValue, DotFreeValue, UndotFields, DotFreeFields, UndotOptional, DotFreeOptional;
    UndotValueIsSame(h.formatUrl);
    UndotOptionalIsSame(h.upstreamName);
    UndotOptionalIsSame(h.upstreamContact);
    UndotOptionalIsSame(h.source);
    UndotOptionalIsSame(h.comment);
    UndotFieldsAreSame(h.extra);
  }

  lemma UndotFilesAreSame(p: FilesParagraph)
    ensures UndotFiles(p) == p <==> DotFreeFiles(p)
  {
    hide UndotValue, DotFreeValue, UndotFields, DotFreeFields, UndotOptional, DotFreeOptional, UndotOptionalText, DotFreeText;
    UndotValueIsSame(p.copyright);
    UndotTextIsSame(p.licenseText);
    UndotOptionalIsSame(p.comment);
    UndotFieldsAreSame(p.extra);
  }

  lemma UndotLicenseIsSame(p: LicenseParagraph)
    ensures UndotLicense(p) == p <==> DotFreeLicense(p)
  {
    hide UndotText, UndotFields, DotFreeFields, UndotOptional, DotFreeOptional, DotFreeText;
    UndotTextIsSame(Some(p.licenseText));
    UndotOptionalIsSame(p.comment);
    UndotFieldsAreSame(p.extra);
  }

  lemma UndotDocumentIsSame(d: Document)
    ensures UndotDocument(d) == d <==> DotFree(d)
  {
    hide UndotHeader, UndotFiles, UndotLicense, DotFreeHeader, DotFreeFiles, DotFreeLicense;
    UndotHeaderIsSame(d.header);
    forall i | 0 <= i < |d.files|
      ensures UndotAllFiles(d.files)[i] == d.files[i] <==> DotFreeFiles(d.files[i])
    {
      UndotFilesAreSame(d.files[i]);
    }
    forall i | 0 <= i < |d.licenses|
      ensures UndotAllLicenses(d.licenses)[i] == d.licenses[i] <==> DotFreeLicense(d.licenses[i])
    {
      UndotLicenseIsSame(d.licenses[i]);
    }
  }

  // ----- texts without a line that is a lone dot -----

  predicate DotFreeReading(r: Reading) {
    && GoodReading(r) && DotFreeFields(r.fields)
    && (r.current.Some? ==> "." !in r.lines[1..])
  }

  lemma SavedIsDotFree(r: Reading)
    requires DotFreeReading(r)
    ensures DotFreeFields(Saved(r))
  {
    if r.current.Some? {
      SavedIsGood(r);
      SplitJoined(r.lines);
      var value := JoinLines(r.lines);
      assert DotFreeValue(value) && GoodField(Field(r.current.value, value));
      hide DotFreeValue, GoodField, GoodReading, Put, JoinLines;
      PutIsGood(r.fields, r.current.value, value);
    }
  }

  lemma LineIsDotFree(r: Reading, line: string)
    requires DotFreeReading(r) && OneLine(line) && !Blank(line) && line != "."
    ensures DotFreeReading(ReadLine(r, line))
  {
    LineIsGood(r, line);
    if !IsContinuation(line) && ':' in line {
      hide GoodReading, Strip, Lower, Saved, DotFreeFields;
      SavedIsDotFree(r);
    } else if r.current.Some? {
      assert r.lines != [];
      hide GoodReading, DotFreeFields;
      var more := if IsContinuation(line) then UndotLine(line[1..]) else line;
      assert (r.lines + [more])[1..] == r.lines[1..] + [more];
    }
  }

  lemma {:induction false} FieldsAreDotFree(lines: seq<string>)
    requires NoBlank(lines) && "." !in lines
    ensures DotFreeReading(ReadLines(START, lines))
  {
    hide DotFreeReading, ReadLine, Blank, OneLine;
    if lines == [] {
      NothingReadIsDotFree();
    } else {
      var n := |lines| - 1;
      assert lines[n] in lines && forall l :: l in lines[..n] ==> l in lines;
      FieldsAreDotFree(lines[..n]);
      LineIsDotFree(ReadLines(START, lines[..n]), lines[n]);
    }
  }

  lemma NothingReadIsDotFree()
    ensures DotFreeReading(START)
  {
  }

  lemma {:induction false} BlockLines(lines: seq<string>, current: seq<string>)
    requires "." !in lines && "." !in current
    ensures forall b :: b in BlocksFrom(lines, current) ==> "." !in b
  {
    hide Blank;
    if lines != [] {
      BlockLines(lines[1..], []);
      if !Blank(lines[0]) {
        BlockLines(lines[1..], current + [lines[0]]);
      }
    }
  }

  lemma ReadParagraphsAreDotFree(text: string)
    requires "." !in Split(text)
    ensures forall p :: p in AllFields(Blocks(text)) ==> DotFreeFields(p)
  {
    BlocksOfText(text);
    BlockLines(Split(text), []);
    var blocks := Blocks(text);
    hide DotFreeFields, FieldsOf, NoBlank, Blocks, Split;
    forall p | p in AllFields(blocks)
      ensures DotFreeFields(p)
    {
      var i :| 0 <= i < |blocks| && FieldsOf(blocks[i]) == p;
      assert blocks[i] in blocks;
      BlockIsDotFree(blocks[i]);
    }
  }

  lemma BlockIsDotFree(block: seq<string>)
    requires NoBlank(block) && "." !in block
    ensures DotFreeFields(FieldsOf(block))
  {
    hide DotFreeReading, ReadLines, DotFreeFields, Saved, NoBlank;
    FieldsAreDotFree(block);
    SavedIsDotFree(ReadLines(START, block));
  }

  lemma {:induction false} FindIsDotFree(fields: seq<Field>, key: string)
    requires DotFreeFields(fields)
    ensures DotFreeOptional(Find(fields, key))
  {
    hide DotFreeValue;
    if fields != [] {
      assert fields[0] in fields && forall f :: f in fields[1..] ==> f in fields;
      FindIsDotFree(fields[1..], key);
    }
  }

  lemma {:induction false} ExtraIsDotFree(fields: seq<Field>, known: seq<string>)
    requires DotFreeFields(fields)
    ensures DotFreeFields(Extra(fields, known))
  {
    hide DotFreeValue;
    if fields != [] {
      assert fields[0] in fields && forall f :: f in fields[1..] ==> f in fields;
      ExtraIsDotFree(fields[1..], known);
    }
  }

  lemma LicenseTextIsDotFree(value: string)
    requires DotFreeValue(value)
    ensures var lines := Split(value);
            DotFreeText(Some(if |lines| > 1 then JoinLines(lines[1..]) else ""))
  {
    var lines := Split(value);
    SplitIsLines(value);
    NoTextIsGood();
    hide Split, OneLine;
    if |lines| > 1 {
      assert forall l :: l in lines[1..] ==> l in lines;
      SplitJoined(lines[1..]);
    }
  }

  lemma ReadHeaderIsDotFree(fields: seq<Field>)
    requires DotFreeFields(fields) && HeaderOf(fields).Ok?
    ensures DotFreeHeader(HeaderOf(fields).value)
  {
    hide Find, Extra, DotFreeFields, DotFreeValue;
    ExtraIsDotFree(fields, HEADER_KEYS);
    FindIsDotFree(fields, "format");
    FindIsDotFree(fields, "upstream-name");
    FindIsDotFree(fields, "upstream-contact");
    FindIsDotFree(fields, "source");
    FindIsDotFree(fields, "comment");
  }

  lemma ReadFilesAreDotFree(fields: seq<Field>, index: nat)
    requires DotFreeFields(fields) && FilesOf(fields, index).Ok?
    ensures DotFreeFiles(FilesOf(fields, index).value)
  {
    hide Find, Extra, DotFreeFields, DotFreeValue, Split, JoinLines, Strip, WordsFrom;
    ExtraIsDotFree(fields, FILES_KEYS);
    FindIsDotFree(fields, "copyright");
    FindIsDotFree(fields, "license");
    FindIsDotFree(fields, "comment");
    LicenseTextIsDotFree(Find(fields, "license").value);
  }

  lemma ReadLicenseIsDotFree(fields: seq<Field>)
    requires DotFreeFields(fields) && Find(fields, "license").Some?
    ensures DotFreeLicense(LicenseOf(fields))
  {
    hide Find, Extra, DotFreeFields, DotFreeValue, Split, JoinLines, Strip;
    ExtraIsDotFree(fields, LICENSE_KEYS);
    FindIsDotFree(fields, "license");
    FindIsDotFree(fields, "comment");
    LicenseTextIsDotFree(Find(fields, "license").value);
  }

  lemma {:induction false} ReadBodyIsDotFree(paragraphs: seq<seq<Field>>, index: nat)
    requires forall p :: p in paragraphs ==> DotFreeFields(p)
    ensures var body := BodyOf(paragraphs, index);
            body.Ok? ==>
              && (forall p :: p in body.value.files ==> DotFreeFiles(p))
              && (forall p :: p in body.value.licenses ==> DotFreeLicense(p))
  {
    hide Find, FilesOf, LicenseOf, DotFreeFields, DotFreeFiles, DotFreeLicense;
    if paragraphs != [] {
      var fields := paragraphs[0];
      assert fields in paragraphs && forall p :: p in paragraphs[1..] ==> p in paragraphs;
      ReadBodyIsDotFree(paragraphs[1..], index + 1);
      if FilesOf(fields, index).Ok? {
        ReadFilesAreDotFree(fields, index);
      }
      if Find(fields, "license").Some? {
        ReadLicenseIsDotFree(fields);
      }
    }
  }

  /** An indented lone dot is read as an empty line; only an unindented one can stay a dot. */
  lemma ReadIsDotFree(text: string)
    requires Read(text).Ok? && "." !in Split(text)
    ensures DotFree(Read(text).value)
  {
    var all := AllFields(Blocks(text));
    ReadParagraphsAreDotFree(text);
    hide DotFreeFields, AllFields, Blocks, DotFreeHeader, DotFreeFiles, DotFreeLicense, HeaderOf, BodyOf, Split;
    assert all[0] in all && forall p :: p in all[1..] ==> p in all;
    ReadHeaderIsDotFree(all[0]);
    ReadBodyIsDotFree(all[1..], 1);
  }
}
