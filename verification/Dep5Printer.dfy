/** Writing a machine-readable copyright document. */
module Dep5Printer {
  import opened Results
  import opened Lines
  import opened Stanzas
  import opened Dictionaries
  import opened Dep5Document

  // ----- what is written -----

  /** Each part of a key between hyphens with its first letter in upper case. */
  function TitleCase(key: string): (t: string)
    ensures |t| == |key|
  {
    seq(|key|, i requires 0 <= i < |key| => if i == 0 || key[i - 1] == '-' then ToUpper(key[i]) else ToLower(key[i]))
  }

  /** A line of a value after the first; an empty one is written as a lone dot. */
  function Continued(line: string): string {
    if line == "" then " ." else " " + line
  }

  function PrintedLines(name: string, value: string): (ls: seq<string>)
    ensures |ls| == |Split(value)|
  {
    var parts := Split(value);
    seq(|parts|, i requires 0 <= i < |parts| => if i == 0 then name + ": " + parts[0] else Continued(parts[i]))
  }

  function ParagraphLines(fields: seq<Field>): seq<string> {
    if fields == [] then []
    else
      var f := fields[|fields| - 1];
      ParagraphLines(fields[..|fields| - 1]) + PrintedLines(TitleCase(f.name), f.value)
  }

  /** The paragraphs in the order they are written. */
  function Paragraphs(d: Document): (ps: seq<seq<Field>>)
    ensures |ps| == 1 + |d.files| + |d.licenses|
  {
    [HeaderFields(d.header)]
    + seq(|d.files|, i requires 0 <= i < |d.files| => FilesFields(d.files[i]))
    + seq(|d.licenses|, i requires 0 <= i < |d.licenses| => LicenseFields(d.licenses[i]))
  }

  function AllLines(paragraphs: seq<seq<Field>>): (bs: seq<seq<string>>)
    ensures |bs| == |paragraphs|
  {
    seq(|paragraphs|, i requires 0 <= i < |paragraphs| => ParagraphLines(paragraphs[i]))
  }

  /** The text of a document: the lines of each paragraph followed by an empty line. */
  function Printed(d: Document): string {
    JoinLines(DocLines(AllLines(Paragraphs(d))))
  }

  // ----- lines that end in a newline -----

  function Ended(lines: seq<string>): string {
    if lines == [] then "" else Ended(lines[..|lines| - 1]) + (lines[|lines| - 1] + "\n")
  }

  lemma {:induction false} EndedInTwo(a: seq<string>, b: seq<string>)
    ensures Ended(a + b) == Ended(a) + Ended(b)
  {
    if b == [] {
      assert a + b == a;
    } else {
      var n := |b| - 1;
      assert (a + b)[..|a + b| - 1] == a + b[..n];
      EndedInTwo(a, b[..n]);
      assert Ended(a) + Ended(b[..n]) + (b[n] + "\n") == Ended(a) + (Ended(b[..n]) + (b[n] + "\n"));
    }
  }

  lemma {:induction false} EndedIsJoined(lines: seq<string>)
    requires lines != []
    ensures Ended(lines) == JoinLines(lines) + "\n"
  {
    var n := |lines| - 1;
    if n > 0 {
      EndedIsJoined(lines[..n]);
    } else {
      assert Ended(lines[..0]) == "";
      assert "" + (lines[0] + "\n") == lines[0] + "\n";
    }
  }

  lemma {:induction false} DocLinesInTwo(a: seq<seq<string>>, b: seq<seq<string>>)
    ensures DocLines(a + b) == DocLines(a) + DocLines(b)
  {
    if a == [] {
      assert a + b == b;
    } else {
      assert (a + b)[1..] == a[1..] + b;
      DocLinesInTwo(a[1..], b);
    }
  }

  /** Paragraphs whose lines all end in a newline, joined by newlines, are the document. */
  lemma {:induction false} JoinedParagraphs(blocks: seq<seq<string>>, texts: seq<string>)
    requires blocks != [] && |texts| == |blocks|
    requires forall i :: 0 <= i < |blocks| ==> blocks[i] != [] && texts[i] == Ended(blocks[i])
    ensures JoinLines(texts) == JoinLines(DocLines(blocks))
  {
    var n := |blocks| - 1;
    var init, last := blocks[..n], blocks[n];
    assert blocks == init + [last];
    DocLinesInTwo(init, [last]);
    assert DocLines([last]) == last + [""] by {
      assert DocLines([last][1..]) == [];
    }
    EndedIsJoined(last);
    JoinAppend(last, [""]);
    assert JoinLines([""]) == "";
    hide Ended;
    var l := JoinLines(last + [""]);
    assert l == texts[n];
    if n == 0 {
      assert DocLines(init) + (last + [""]) == last + [""];
    } else {
      JoinedParagraphs(init, texts[..n]);
      assert DocLines(init) != [];
      hide DocLines;
      JoinAppend(DocLines(init), last + [""]);
    }
  }

  lemma EndedParagraph(fields: seq<Field>, f: Field)
    ensures Ended(ParagraphLines(fields + [f]))
            == Ended(ParagraphLines(fields)) + Ended(PrintedLines(TitleCase(f.name), f.value))
  {
    assert (fields + [f])[..|fields|] == fields;
    EndedInTwo(ParagraphLines(fields), PrintedLines(TitleCase(f.name), f.value));
    hide Ended, PrintedLines;
  }

  lemma ShortKeysInTitleCase()
    ensures TitleCase("format") == "Format" && TitleCase("source") == "Source"
    ensures TitleCase("comment") == "Comment" && TitleCase("files") == "Files"
    ensures TitleCase("copyright") == "Copyright" && TitleCase("license") == "License"
  {
  }

  lemma UpstreamKeysInTitleCase()
    ensures TitleCase("upstream-name") == "Upstream-Name"
    ensures TitleCase("upstream-contact") == "Upstream-Contact"
  {
  }

  class DEP5Printer {

    constructor () {
    }

    method FormatField(name: string, value: string) returns (result: string)
      ensures result == Ended(PrintedLines(name, value))
    {
      hide Split;
      var fieldLines := Split(value);
      ghost var lines := PrintedLines(name, value);
      result := name + ": " + fieldLines[0] + "\n";
      assert lines[..1] == [lines[0]];
      EndedStep(lines, 0);
      for i := 1 to |fieldLines|
        invariant result == Ended(lines[..i])
      {
        EndedStep(lines, i);
        if fieldLines[i] == "" {
          assert lines[i] == " .";
          result := result + " .\n";
        } else {
          result := result + (" " + fieldLines[i] + "\n");
        }
      }
      assert lines[..|lines|] == lines;
    }

    /** Write one more field of a paragraph, under its key in title case. */
    method AppendField(text: string, ghost fields: seq<Field>, name: string, key: string, value: string)
      returns (result: string)
      requires text == Ended(ParagraphLines(fields)) && name == TitleCase(key)
      ensures result == Ended(ParagraphLines(fields + [Field(key, value)]))
    {
      EndedParagraph(fields, Field(key, value));
      hide *;
      var field := FormatField(name, value);
      result := text + field;
    }

    method AppendOptional(text: string, ghost fields: seq<Field>, name: string, key: string, value: Option<string>)
      returns (result: string)
      requires text == Ended(ParagraphLines(fields)) && name == TitleCase(key)
      ensures result == Ended(ParagraphLines(fields + Optional(key, value)))
    {
      hide ParagraphLines, Ended, TitleCase;
      if value.Some? {
        result := AppendField(text, fields, name, key, value.value);
      } else {
        result := text;
        assert fields + [] == fields;
      }
    }

    method AppendExtra(text: string, ghost fields: seq<Field>, extra: seq<Field>) returns (result: string)
      requires text == Ended(ParagraphLines(fields))
      ensures result == Ended(ParagraphLines(fields + extra))
    {
      hide *;
      result := text;
      assert fields + extra[..0] == fields;
      for i := 0 to |extra|
        invariant result == Ended(ParagraphLines(fields + extra[..i]))
      {
        assert fields + extra[..i + 1] == (fields + extra[..i]) + [Field(extra[i].name, extra[i].value)];
        result := AppendField(result, fields + extra[..i], TitleCase(extra[i].name), extra[i].name, extra[i].value);
      }
      assert extra[..|extra|] == extra;
    }

    method FormatHeader(header: Header) returns (text: string)
      ensures text == Ended(ParagraphLines(HeaderFields(header)))
    {
      ShortKeysInTitleCase();
      UpstreamKeysInTitleCase();
      hide ParagraphLines, Ended, TitleCase, Optional;
      ghost var fields := [Field("format", header.formatUrl)];
      NoFields();
      assert [] + fields == fields;
      text := AppendField("", [], "Format", "format", header.formatUrl);
      text := AppendOptional(text, fields, "Upstream-Name", "upstream-name", header.upstreamName);
      fields := fields + Optional("upstream-name", header.upstreamName);
      text := AppendOptional(text, fields, "Upstream-Contact", "upstream-contact", header.upstreamContact);
      fields := fields + Optional("upstream-contact", header.upstreamContact);
      text := AppendOptional(text, fields, "Source", "source", header.source);
      fields := fields + Optional("source", header.source);
      text := AppendOptional(text, fields, "Comment", "comment", header.comment);
      fields := fields + Optional("comment", header.comment);
      text := AppendExtra(text, fields, header.extra);
    }

    method FormatFilesParagraph(para: FilesParagraph) returns (text: string)
      ensures text == Ended(ParagraphLines(FilesFields(para)))
    {
      ShortKeysInTitleCase();
      hide ParagraphLines, Ended, TitleCase, Optional, JoinWords;
      var filesValue := JoinWords(para.files);
      var licenseValue := if para.licenseText.Some? then para.licenseName + "\n" + para.licenseText.value
                          else para.licenseName;
      NoFields();
      ghost var fields := [Field("files", filesValue)];
      assert [] + fields == fields;
      text := AppendField("", [], "Files", "files", filesValue);
      text := AppendField(text, fields, "Copyright", "copyright", para.copyright);
      fields := fields + [Field("copyright", para.copyright)];
      text := AppendField(text, fields, "License", "license", licenseValue);
      fields := fields + [Field("license", licenseValue)];
      text := AppendOptional(text, fields, "Comment", "comment", para.comment);
      fields := fields + Optional("comment", para.comment);
      text := AppendExtra(text, fields, para.extra);
      assert fields + para.extra == FilesFields(para);
    }

    method FormatLicenseParagraph(para: LicenseParagraph) returns (text: string)
      ensures text == Ended(ParagraphLines(LicenseFields(para)))
    {
      ShortKeysInTitleCase();
      hide ParagraphLines, Ended, TitleCase, Optional;
      var licenseValue := if para.licenseText != "" then para.licenseName + "\n" + para.licenseText
                          else para.licenseName;
      NoFields();
      ghost var fields := [Field("license", licenseValue)];
      assert [] + fields == fields;
      text := AppendField("", [], "License", "license", licenseValue);
      text := AppendOptional(text, fields, "Comment", "comment", para.comment);
      fields := fields + Optional("comment", para.comment);
      text := AppendExtra(text, fields, para.extra);
      assert fields + para.extra == LicenseFields(para);
    }

    method Print(document: Document) returns (text: string)
      ensures text == Printed(document)
    {
      ghost var ps, blocks := Paragraphs(document), AllLines(Paragraphs(document));
      ParagraphsAre(document);
      hide *;
      var header := FormatHeader(document.header);
      var paragraphs := [header];
      for i := 0 to |document.files|
        invariant |paragraphs| == 1 + i
        invariant forall k :: 0 <= k <= i ==> paragraphs[k] == Ended(blocks[k])
      {
        var paragraph := FormatFilesParagraph(document.files[i]);
        paragraphs := paragraphs + [paragraph];
      }
      for i := 0 to |document.licenses|
        invariant |paragraphs| == 1 + |document.files| + i
        invariant forall k :: 0 <= k <= |document.files| + i ==> paragraphs[k] == Ended(blocks[k])
      {
        var paragraph := FormatLicenseParagraph(document.licenses[i]);
        paragraphs := paragraphs + [paragraph];
      }
      JoinedParagraphs(blocks, paragraphs);
      text := JoinLines(paragraphs);
    }
  }

  lemma NoFields()
    ensures "" == Ended(ParagraphLines([]))
  {
  }

  lemma EndedStep(lines: seq<string>, i: nat)
    requires i < |lines|
    ensures Ended(lines[..i + 1]) == Ended(lines[..i]) + (lines[i] + "\n")
    ensures i == 0 ==> Ended(lines[..i + 1]) == lines[0] + "\n"
  {
    assert lines[..i + 1][..i] == lines[..i];
    if i == 0 {
      assert Ended(lines[..0]) == "";
    }
  }

  lemma ParagraphsAre(d: Document)
    ensures var ps, bs := Paragraphs(d), AllLines(Paragraphs(d));
            && Printed(d) == JoinLines(DocLines(bs))
            && |bs| == 1 + |d.files| + |d.licenses|
            && bs[0] == ParagraphLines(HeaderFields(d.header))
            && (forall i :: 0 <= i < |d.files| ==> bs[1 + i] == ParagraphLines(FilesFields(d.files[i])))
            && (forall i :: 0 <= i < |d.licenses| ==>
                  bs[1 + |d.files| + i] == ParagraphLines(LicenseFields(d.licenses[i])))
            && (forall i :: 0 <= i < |bs| ==> bs[i] != [])
  {
    hide HeaderFields, FilesFields, LicenseFields, JoinLines, DocLines;
    var ps := Paragraphs(d);
    forall i | 0 <= i < |ps|
      ensures ps[i] != [] && ParagraphLines(ps[i]) != []
    {
      FieldsAreSome(d, i);
    }
    hide ParagraphLines;
  }

  lemma FieldsAreSome(d: Document, i: nat)
    requires i < |Paragraphs(d)|
    ensures Paragraphs(d)[i] != []
  {
  }
}
