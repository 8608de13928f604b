/** A written copyright document is read back, with its lone dots as empty lines. */
module Dep5ReadBack {
  import opened Results
  import opened Lines
  import opened Stanzas
  import opened Dictionaries
  import opened Dep5Document
  import opened Dep5Parser
  import opened Dep5Printer
  import opened Dep5RoundTrip
  import opened Dep5Kinds
  import opened Dep5Paragraphs

  predicate IsFiles(fields: seq<Field>, index: nat, p: FilesParagraph) {
    Find(fields, "files").Some? && FilesOf(fields, index) == Ok(p)
  }

  predicate IsLicense(fields: seq<Field>, p: LicenseParagraph) {
    Find(fields, "files").None? && Find(fields, "license").Some? && LicenseOf(fields) == p
  }

  predicate AllFiles(paragraphs: seq<seq<Field>>, files: seq<FilesParagraph>, index: nat)
    requires |files| <= |paragraphs|
  {
    forall i :: 0 <= i < |files| ==> IsFiles(paragraphs[i], index + i, files[i])
  }

  predicate AllLicenses(paragraphs: seq<seq<Field>>, licenses: seq<LicenseParagraph>)
    requires |licenses| == |paragraphs|
  {
    forall i :: 0 <= i < |licenses| ==> IsLicense(paragraphs[i], licenses[i])
  }

  lemma {:induction false} FilesBodyIsRead(paragraphs: seq<seq<Field>>, body: Body, index: nat)
    requires |paragraphs| == |body.files| + |body.licenses|
    requires AllFiles(paragraphs, body.files, index) && AllLicenses(paragraphs[|body.files|..], body.licenses)
    ensures BodyOf(paragraphs, index) == Ok(body)
  {
    hide Find, FilesOf, LicenseOf, AllLicenses;
    if body.files == [] {
      assert paragraphs[0..] == paragraphs;
      hide AllFiles;
      LicensesBodyIsRead(paragraphs, body.licenses, index);
    } else {
      var tail, rest := paragraphs[1..], Body(body.files[1..], body.licenses);
      forall i | 0 <= i < |rest.files|
        ensures IsFiles(tail[i], index + 1 + i, rest.files[i])
      {
        assert IsFiles(paragraphs[i + 1], index + (i + 1), body.files[i + 1]);
      }
      assert tail[|rest.files|..] == paragraphs[|body.files|..];
      FilesBodyIsRead(tail, rest, index + 1);
      assert IsFiles(paragraphs[0], index + 0, body.files[0]);
      assert body.files == [body.files[0]] + rest.files && body.licenses == [] + rest.licenses;
      hide AllFiles;
    }
  }

  lemma {:induction false} LicensesBodyIsRead(paragraphs: seq<seq<Field>>, licenses: seq<LicenseParagraph>, index: nat)
    requires |licenses| == |paragraphs| && AllLicenses(paragraphs, licenses)
    ensures BodyOf(paragraphs, index) == Ok(Body([], licenses))
  {
    hide Find, FilesOf, LicenseOf;
    if licenses != [] {
      assert IsLicense(paragraphs[0], licenses[0]);
      assert AllLicenses(paragraphs[1..], licenses[1..]);
      hide AllLicenses;
      LicensesBodyIsRead(paragraphs[1..], licenses[1..], index + 1);
      assert licenses == [licenses[0]] + licenses[1..];
      var none: seq<FilesParagraph> := [];
      assert none + none == none;
    }
  }

  lemma ParagraphKinds(d: Document)
    ensures var ps := Paragraphs(d);
            && ps[0] == HeaderFields(d.header)
            && (forall i :: 1 <= i <= |d.files| ==> ps[i] == FilesFields(d.files[i - 1]))
            && (forall i :: |d.files| < i < |ps| ==> ps[i] == LicenseFields(d.licenses[i - 1 - |d.files|]))
  {
    hide HeaderFields, FilesFields, LicenseFields;
  }

  /** Every paragraph of a well-formed document is written with good fields. */
  lemma ParagraphsAreGood(d: Document)
    requires GoodDocument(d)
    ensures forall p :: p in Paragraphs(d) ==> GoodFields(p)
  {
    ParagraphKinds(d);
    hide Paragraphs, GoodFields, GoodHeader, GoodFiles, GoodLicense, HeaderFields, FilesFields, LicenseFields, UndotHeader,
      UndotFiles, UndotLicense, HeaderOf, FilesOf, LicenseOf, Find, UndotFields;
    var ps := Paragraphs(d);
    forall p | p in ps
      ensures GoodFields(p)
    {
      var i :| 0 <= i < |ps| && ps[i] == p;
      if i == 0 {
        HeaderIsReadBack(d.header);
      } else if i <= |d.files| {
        assert d.files[i - 1] in d.files;
        FilesAreReadBack(d.files[i - 1], 0);
      } else {
        assert d.licenses[i - 1 - |d.files|] in d.licenses;
        LicenseIsReadBack(d.licenses[i - 1 - |d.files|]);
      }
    }
  }

  lemma PrintedBlocks(d: Document)
    requires GoodDocument(d)
    ensures Blocks(Printed(d)) == AllLines(Paragraphs(d))
  {
    var ps, blocks := Paragraphs(d), AllLines(Paragraphs(d));
    ParagraphsAreGood(d);
    ParagraphsAre(d);
    hide Paragraphs, GoodFields, GoodDocument, ParagraphLines, Printed, NoBlank;
    forall b | b in blocks
      ensures NoBlank(b) && b != []
    {
      var i :| 0 <= i < |ps| && blocks[i] == b;
      assert ps[i] in ps;
      ParagraphHasNoBlank(ps[i]);
    }
    hide AllLines;
    DocLinesSplit(blocks);
    DocLinesAreOneLine(blocks);
    SplitJoined(DocLines(blocks));
    AllNonEmpty(blocks);
  }

  lemma {:induction false} AllNonEmpty(blocks: seq<seq<string>>)
    requires forall b :: b in blocks ==> b != []
    ensures NonEmpty(blocks) == blocks
  {
    if blocks != [] {
      assert blocks[0] in blocks && forall b :: b in blocks[1..] ==> b in blocks;
      AllNonEmpty(blocks[1..]);
    }
  }

  lemma PrintedFields(d: Document)
    requires GoodDocument(d)
    ensures var all, ps := AllFields(Blocks(Printed(d))), Paragraphs(d);
            |all| == |ps| && forall i :: 0 <= i < |ps| ==> all[i] == UndotFields(ps[i])
  {
    PrintedBlocks(d);
    ParagraphsAreGood(d);
    var all, ps := AllFields(Blocks(Printed(d))), Paragraphs(d);
    hide Paragraphs, GoodFields, GoodDocument, ParagraphLines, Printed, FieldsOf, UndotFields, Blocks;
    forall i | 0 <= i < |ps|
      ensures all[i] == UndotFields(ps[i])
    {
      assert ps[i] in ps;
      ParagraphIsRead(ps[i]);
    }
  }

  lemma UndotDocumentIsGood(d: Document)
    requires GoodDocument(d)
    ensures GoodDocument(UndotDocument(d))
  {
    hide GoodHeader, GoodFiles, GoodLicense, UndotHeader, UndotFiles, UndotLicense, HeaderOf, FilesOf, LicenseOf,
      HeaderFields, FilesFields, LicenseFields, Find, UndotFields, GoodFields;
    var u := UndotDocument(d);
    HeaderIsReadBack(d.header);
    forall p | p in u.files
      ensures GoodFiles(p)
    {
      var i :| 0 <= i < |u.files| && u.files[i] == p;
      assert d.files[i] in d.files;
      FilesAreReadBack(d.files[i], 0);
    }
    forall p | p in u.licenses
      ensures GoodLicense(p)
    {
      var i :| 0 <= i < |u.licenses| && u.licenses[i] == p;
      assert d.licenses[i] in d.licenses;
      LicenseIsReadBack(d.licenses[i]);
    }
  }

  lemma PrintedHeader(d: Document, all: seq<seq<Field>>)
    requires GoodDocument(d) && all == AllFields(Blocks(Printed(d)))
    ensures all != [] && HeaderOf(all[0]) == Ok(UndotHeader(d.header))
  {
    PrintedFields(d);
    ParagraphKinds(d);
    hide Paragraphs, AllFields, Blocks, Printed, HeaderOf, HeaderFields, UndotFields, UndotHeader, GoodHeader;
    HeaderIsReadBack(d.header);
    HeaderIsReadBack(UndotHeader(d.header));
  }

  lemma FilesAreRead(p: FilesParagraph, index: nat)
    requires GoodFiles(p)
    ensures IsFiles(UndotFields(FilesFields(p)), index, UndotFiles(p))
  {
    hide GoodFiles, UndotFields, UndotFiles, FilesFields, Find, FilesOf;
    FilesAreReadBack(p, index);
    FilesAreReadBack(UndotFiles(p), index);
  }

  lemma LicenseIsRead(p: LicenseParagraph)
    requires GoodLicense(p)
    ensures IsLicense(UndotFields(LicenseFields(p)), UndotLicense(p))
  {
    hide GoodLicense, UndotFields, UndotLicense, LicenseFields, Find, LicenseOf;
    LicenseIsReadBack(p);
  }

  lemma PrintedFiles(d: Document, all: seq<seq<Field>>)
    requires GoodDocument(d) && all == AllFields(Blocks(Printed(d)))
    ensures |all| == 1 + |d.files| + |d.licenses| && AllFiles(all[1..], UndotAllFiles(d.files), 1)
  {
    PrintedFields(d);
    ParagraphKinds(d);
    hide Paragraphs, GoodFiles, GoodLicense, GoodHeader, UndotFields, UndotFiles, HeaderFields, FilesFields,
      LicenseFields, IsFiles, Printed, AllFields, Blocks;
    forall i | 0 <= i < |d.files|
      ensures IsFiles(all[1..][i], 1 + i, UndotAllFiles(d.files)[i])
    {
      assert d.files[i] in d.files && all[1..][i] == all[1 + i];
      FilesAreRead(d.files[i], 1 + i);
    }
  }

  lemma PrintedLicenses(d: Document, all: seq<seq<Field>>)
    requires GoodDocument(d) && all == AllFields(Blocks(Printed(d)))
    ensures |all| == 1 + |d.files| + |d.licenses|
    ensures AllLicenses(all[1..][|d.files|..], UndotAllLicenses(d.licenses))
  {
    PrintedFields(d);
    ParagraphKinds(d);
    hide Paragraphs, GoodFiles, GoodLicense, GoodHeader, UndotFields, UndotLicense, HeaderFields, FilesFields,
      LicenseFields, IsLicense, Printed, AllFields, Blocks;
    forall i | 0 <= i < |d.licenses|
      ensures IsLicense(all[1..][|d.files|..][i], UndotAllLicenses(d.licenses)[i])
    {
      assert d.licenses[i] in d.licenses && all[1..][|d.files|..][i] == all[1 + |d.files| + i];
      LicenseIsRead(d.licenses[i]);
    }
  }

  lemma PrintedBody(d: Document, all: seq<seq<Field>>)
    requires GoodDocument(d) && all == AllFields(Blocks(Printed(d)))
    ensures all != []
    ensures BodyOf(all[1..], 1) == Ok(Body(UndotAllFiles(d.files), UndotAllLicenses(d.licenses)))
  {
    hide *;
    PrintedFiles(d, all);
    PrintedLicenses(d, all);
    FilesBodyIsRead(all[1..], Body(UndotAllFiles(d.files), UndotAllLicenses(d.licenses)), 1);
  }

  /** A well-formed document survives writing and reading, with its lone dots as empty lines. */
  lemma ReadPrinted(d: Document)
    requires GoodDocument(d)
    ensures Read(Printed(d)) == Ok(UndotDocument(d))
  {
    var all := AllFields(Blocks(Printed(d)));
    PrintedHeader(d, all);
    PrintedBody(d, all);
    hide HeaderOf, BodyOf, AllFields, Blocks, Printed, UndotHeader, UndotAllFiles, UndotAllLicenses;
  }
}
