/** The text of a copyright file, field by field. */
module Dep5Text {
  import opened Results
  import opened Letters
  import opened Lines
  import opened LineLaws
  import opened Stanzas
  import opened PrintLaws
  import opened Dictionaries
  import opened Dep5Document
  import opened Dep5Printer

  function Line(name: string, value: string): string {
    name + ": " + Folded(value) + "\n"
  }

  function LineIf(name: string, value: Option<string>): string {
    if value.Some? then Line(name, value.value) else ""
  }

  /** Other fields, under their keys in title case. */
  function Others(fields: seq<Field>): string {
    if fields == [] then ""
    else Others(fields[..|fields| - 1]) + Line(TitleCase(fields[|fields| - 1].name), fields[|fields| - 1].value)
  }

  function WrittenHeader(h: Header): string {
    Line("Format", h.formatUrl) + LineIf("Upstream-Name", h.upstreamName) + LineIf("Upstream-Contact", h.upstreamContact)
    + LineIf("Source", h.source) + LineIf("Comment", h.comment) + Others(h.extra)
  }

  function WrittenFiles(p: FilesParagraph): string {
    Line("Files", JoinWords(p.files)) + Line("Copyright", p.copyright)
    + Line("License", p.licenseName + if p.licenseText.Some? then "\n" + p.licenseText.value else "")
    + LineIf("Comment", p.comment) + Others(p.extra)
  }

  function WrittenLicense(p: LicenseParagraph): string {
    Line("License", p.licenseName + if p.licenseText != "" then "\n" + p.licenseText else "")
    + LineIf("Comment", p.comment) + Others(p.extra)
  }

  /** Paragraphs with an empty line between each two. */
  function Paragraphed(texts: seq<string>): string {
    if texts == [] then ""
    else if |texts| == 1 then texts[0]
    else Paragraphed(texts[..|texts| - 1]) + "\n" + texts[|texts| - 1]
  }

  function WrittenDocument(d: Document): string {
    Paragraphed([WrittenHeader(d.header)]
                + seq(|d.files|, i requires 0 <= i < |d.files| => WrittenFiles(d.files[i]))
                + seq(|d.licenses|, i requires 0 <= i < |d.licenses| => WrittenLicense(d.licenses[i])))
  }

  // ----- it is what is written -----

  lemma MarkIs(line: string)
    ensures Continued(line) == Mark(line, true) + line
  {
    assert line == "" ==> " ." + line == " .";
  }

  lemma LinesAre(name: string, value: string)
    ensures Ended(PrintedLines(name, value)) == Line(name, value) && PrintedLines(name, value) != []
  {
    MarkedText(value);
    var ms := Marks(Split(value), true);
    hide Split, Folded, Ended, JoinLines;
    forall i | 0 <= i < |ms|
      ensures PrintedLines(name, value)[i] == ([(name + ": ") + ms[0]] + ms[1..])[i]
    {
      MarkIs(Split(value)[i]);
    }
    assert PrintedLines(name, value) == [(name + ": ") + ms[0]] + ms[1..];
    hide Marks, PrintedLines;
    JoinPrefixed(name + ": ", ms);
    EndedIsJoined(PrintedLines(name, value));
  }

  function TextOf(fields: seq<Field>): string {
    Ended(ParagraphLines(fields))
  }

  lemma OneMore(fields: seq<Field>, key: string, name: string, value: Option<string>)
    requires TitleCase(key) == name
    ensures TextOf(fields + Optional(key, value)) == TextOf(fields) + LineIf(name, value)
  {
    hide Ended, ParagraphLines, PrintedLines, TitleCase, Line;
    if value.Some? {
      EndedParagraph(fields, Field(key, value.value));
      LinesAre(name, value.value);
    } else {
      assert fields + [] == fields && TextOf(fields) + "" == TextOf(fields);
    }
  }

  lemma {:induction false} OthersAre(fields: seq<Field>, extra: seq<Field>)
    ensures TextOf(fields + extra) == TextOf(fields) + Others(extra)
  {
    hide Ended, ParagraphLines, PrintedLines, TitleCase, Line;
    if extra == [] {
      assert fields + extra == fields && TextOf(fields) + "" == TextOf(fields);
    } else {
      var n := |extra| - 1;
      var f := extra[n];
      OthersAre(fields, extra[..n]);
      assert fields + extra == (fields + extra[..n]) + [f];
      EndedParagraph(fields + extra[..n], f);
      LinesAre(TitleCase(f.name), f.value);
      assert TextOf(fields) + Others(extra[..n]) + Line(TitleCase(f.name), f.value) == TextOf(fields) + Others(extra);
    }
  }

  lemma NoText()
    ensures TextOf([]) == ""
  {
  }

  lemma First(key: string, name: string, value: string)
    requires TitleCase(key) == name
    ensures TextOf([Field(key, value)]) == Line(name, value)
  {
    hide TextOf, TitleCase, Line;
    NoText();
    OneMore([], key, name, Some(value));
    assert [] + Optional(key, Some(value)) == [Field(key, value)];
    assert "" + Line(name, value) == Line(name, value);
  }

  lemma HeaderIs(h: Header)
    ensures TextOf(HeaderFields(h)) == WrittenHeader(h)
  {
    ShortKeysInTitleCase();
    UpstreamKeysInTitleCase();
    hide TextOf, Line, LineIf, TitleCase, Others, Optional;
    First("format", "Format", h.formatUrl);
    var a := [Field("format", h.formatUrl)];
    var b := a + Optional("upstream-name", h.upstreamName);
    var c := b + Optional("upstream-contact", h.upstreamContact);
    var d := c + Optional("source", h.source);
    OneMore(a, "upstream-name", "Upstream-Name", h.upstreamName);
    OneMore(b, "upstream-contact", "Upstream-Contact", h.upstreamContact);
    OneMore(c, "source", "Source", h.source);
    OneMore(d, "comment", "Comment", h.comment);
    OthersAre(d + Optional("comment", h.comment), h.extra);
  }

  lemma FilesAre(p: FilesParagraph)
    ensures TextOf(FilesFields(p)) == WrittenFiles(p)
  {
    ShortKeysInTitleCase();
    hide TextOf, Line, LineIf, TitleCase, Others, Optional, JoinWords;
    var files, license := JoinWords(p.files), LicenseValue(p.licenseName, p.licenseText);
    assert license == p.licenseName + if p.licenseText.Some? then "\n" + p.licenseText.value else "" by {
      assert p.licenseName + "" == p.licenseName;
    }
    First("files", "Files", files);
    var a := [Field("files", files)];
    SomeMore(a, "copyright", "Copyright", p.copyright);
    var b := a + [Field("copyright", p.copyright)];
    SomeMore(b, "license", "License", license);
    var c := b + [Field("license", license)];
    assert c == [Field("files", files), Field("copyright", p.copyright), Field("license", license)];
    OneMore(c, "comment", "Comment", p.comment);
    OthersAre(c + Optional("comment", p.comment), p.extra);
  }

  lemma SomeMore(fields: seq<Field>, key: string, name: string, value: string)
    requires TitleCase(key) == name
    ensures TextOf(fields + [Field(key, value)]) == TextOf(fields) + Line(name, value)
  {
    hide TextOf, TitleCase, Line;
    OneMore(fields, key, name, Some(value));
  }

  lemma LicenseIs(p: LicenseParagraph)
    ensures TextOf(LicenseFields(p)) == WrittenLicense(p)
  {
    ShortKeysInTitleCase();
    hide TextOf, Line, LineIf, TitleCase, Others, Optional;
    var license := LicenseValue(p.licenseName, if p.licenseText != "" then Some(p.licenseText) else None);
    assert license == p.licenseName + if p.licenseText != "" then "\n" + p.licenseText else "" by {
      assert p.licenseName + "" == p.licenseName;
    }
    First("license", "License", license);
    var a := [Field("license", license)];
    OneMore(a, "comment", "Comment", p.comment);
    OthersAre(a + Optional("comment", p.comment), p.extra);
  }

  lemma {:induction false} JoinedIs(texts: seq<string>)
    ensures JoinLines(texts) == Paragraphed(texts)
  {
    if |texts| > 1 {
      JoinedIs(texts[..|texts| - 1]);
    }
  }

  lemma {:induction false} ParagraphHasLines(fields: seq<Field>)
    requires fields != []
    ensures ParagraphLines(fields) != []
  {
    var f := fields[|fields| - 1];
    LinesAre(TitleCase(f.name), f.value);
  }

  lemma TextAt(d: Document, i: nat)
    requires i < |Paragraphs(d)|
    ensures var texts := [WrittenHeader(d.header)]
                         + seq(|d.files|, i requires 0 <= i < |d.files| => WrittenFiles(d.files[i]))
                         + seq(|d.licenses|, i requires 0 <= i < |d.licenses| => WrittenLicense(d.licenses[i]));
            Paragraphs(d)[i] != [] && |texts| == |Paragraphs(d)| && TextOf(Paragraphs(d)[i]) == texts[i]
  {
    hide TextOf, WrittenHeader, WrittenFiles, WrittenLicense;
    HeaderIs(d.header);
    if 1 <= i <= |d.files| {
      FilesAre(d.files[i - 1]);
    } else if i > |d.files| {
      LicenseIs(d.licenses[i - 1 - |d.files|]);
    }
  }

  /** Every document is printed as this text. */
  lemma DocumentIs(d: Document)
    ensures Printed(d) == WrittenDocument(d)
  {
    var texts := [WrittenHeader(d.header)]
                 + seq(|d.files|, i requires 0 <= i < |d.files| => WrittenFiles(d.files[i]))
                 + seq(|d.licenses|, i requires 0 <= i < |d.licenses| => WrittenLicense(d.licenses[i]));
    var blocks := AllLines(Paragraphs(d));
    hide Paragraphs, ParagraphLines, Ended, WrittenHeader, WrittenFiles, WrittenLicense, JoinLines, Paragraphed, DocLines;
    TextAt(d, 0);
    forall i | 0 <= i < |blocks|
      ensures blocks[i] != [] && texts[i] == Ended(blocks[i])
    {
      TextAt(d, i);
      ParagraphHasLines(Paragraphs(d)[i]);
    }
    JoinedParagraphs(blocks, texts);
    JoinedIs(texts);
  }

  /** Title case changes the case of letters only: upper at the start and after a hyphen, lower elsewhere. */
  lemma TitleCaseIs(key: string, i: nat)
    requires i < |key|
    ensures |TitleCase(key)| == |key| && SameLetter(key[i], TitleCase(key)[i])
    ensures if i == 0 || key[i - 1] == '-' then !('a' <= TitleCase(key)[i] <= 'z') else !('A' <= TitleCase(key)[i] <= 'Z')
  {
    LowerIs(key[i], key[i]);
  }
}
