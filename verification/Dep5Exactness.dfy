/** Reading a written copyright document gives it back exactly when it is well formed and free of lone dots. */
module Dep5Exactness {
  import opened Results
  import opened Lines
  import opened Stanzas
  import opened Dictionaries
  import opened Dep5Document
  import opened Dep5Parser
  import opened Dep5Printer
  import opened Dep5Kinds
  import opened Dep5ReadBack
  import opened Dep5WellFormed
  import opened Dep5Dots

  /** Reading is a left inverse of writing exactly on well-formed documents without lone dots. */
  lemma RoundTripsExactly(d: Document)
    ensures Read(Printed(d)) == Ok(d) <==> GoodDocument(d) && DotFree(d)
  {
    hide Read, Printed, GoodDocument, DotFree, UndotDocument;
    UndotDocumentIsSame(d);
    if GoodDocument(d) {
      ReadPrinted(d);
    } else if Read(Printed(d)).Ok? {
      ReadIsGood(Printed(d));
    }
  }

  /** Every accepted text: written again it is accepted, and only lone dots become empty lines;
      a second time nothing changes. */
  lemma ReprintKeepsDocument(text: string)
    requires Read(text).Ok?
    ensures var d := Read(text).value;
            && Read(Printed(d)) == Ok(UndotDocument(d))
            && (Read(Printed(d)) == Read(text) <==> DotFree(d))
            && ("." !in Split(text) ==> Read(Printed(d)) == Read(text))
            && Read(Printed(UndotDocument(d))) == Ok(UndotDocument(d))
  {
    hide Read, Printed, GoodDocument, DotFree, UndotDocument;
    var d := Read(text).value;
    ReadIsGood(text);
    ReadPrinted(d);
    UndotDocumentIsSame(d);
    UndotDocumentIsGood(d);
    ReadPrinted(UndotDocument(d));
    UndotTwice(d);
    if "." !in Split(text) {
      ReadIsDotFree(text);
    }
  }

  // ----- undotting twice -----

  lemma UndotValueTwice(value: string)
    ensures UndotValue(UndotValue(value)) == UndotValue(value)
  {
    var parts := Split(value);
    UndotSplits(value);
    UndotValueIsSame(UndotValue(value));
    assert UndotLines(parts)[1..] == UndotRest(parts[1..]);
    hide Split, UndotValue;
  }

  lemma UndotTextTwice(text: string)
    ensures UndotText(UndotText(text)) == UndotText(text)
  {
    UndotTextSplits(text);
    UndotTextIsSame(Some(UndotText(text)));
    hide Split, UndotText;
  }

  lemma UndotOptionalTwice(value: Option<string>)
    ensures UndotOptional(UndotOptional(value)) == UndotOptional(value)
  {
    hide UndotValue;
    if value.Some? {
      UndotValueTwice(value.value);
    }
  }

  lemma UndotFieldsTwice(fields: seq<Field>)
    ensures UndotFields(UndotFields(fields)) == UndotFields(fields)
  {
    hide UndotValue;
    forall i | 0 <= i < |fields|
      ensures UndotField(UndotField(fields[i])) == UndotField(fields[i])
    {
      UndotValueTwice(fields[i].value);
    }
  }

  lemma UndotFilesTwice(p: FilesParagraph)
    ensures UndotFiles(UndotFiles(p)) == UndotFiles(p)
  {
    hide UndotValue, UndotFields, UndotOptional, UndotText;
    UndotValueTwice(p.copyright);
    UndotOptionalTwice(p.comment);
    UndotFieldsTwice(p.extra);
    if p.licenseText.Some? {
      UndotTextTwice(p.licenseText.value);
    }
  }

  lemma UndotLicenseTwice(p: LicenseParagraph)
    ensures UndotLicense(UndotLicense(p)) == UndotLicense(p)
  {
    hide UndotFields, UndotOptional, UndotText;
    UndotOptionalTwice(p.comment);
    UndotFieldsTwice(p.extra);
    UndotTextTwice(p.licenseText);
  }

  lemma UndotHeaderTwice(h: Header)
    ensures UndotHeader(UndotHeader(h)) == UndotHeader(h)
  {
    hide UndotValue, UndotFields, UndotOptional;
    UndotValueTwice(h.formatUrl);
    UndotOptionalTwice(h.upstreamName);
    UndotOptionalTwice(h.upstreamContact);
    UndotOptionalTwice(h.source);
    UndotOptionalTwice(h.comment);
    UndotFieldsTwice(h.extra);
  }

  lemma UndotTwice(d: Document)
    ensures UndotDocument(UndotDocument(d)) == UndotDocument(d)
  {
    hide UndotHeader, UndotFiles, UndotLicense;
    UndotHeaderTwice(d.header);
    forall i | 0 <= i < |d.files|
      ensures UndotFiles(UndotFiles(d.files[i])) == UndotFiles(d.files[i])
    {
      UndotFilesTwice(d.files[i]);
    }
    forall i | 0 <= i < |d.licenses|
      ensures UndotLicense(UndotLicense(d.licenses[i])) == UndotLicense(d.licenses[i])
    {
      UndotLicenseTwice(d.licenses[i]);
    }
  }
}
