/** A machine-readable copyright document and the fields that make up each of its paragraphs. */
module Dep5Document {
  import opened Results
  import opened Lines
  import opened Stanzas
  import opened Dictionaries

  datatype Header = Header(formatUrl: string, upstreamName: Option<string>, upstreamContact: Option<string>,
                           source: Option<string>, comment: Option<string>, extra: seq<Field>)

  datatype FilesParagraph = FilesParagraph(files: seq<string>, copyright: string, licenseName: string,
                                           licenseText: Option<string>, comment: Option<string>, extra: seq<Field>)

  datatype LicenseParagraph = LicenseParagraph(licenseName: string, licenseText: string, comment: Option<string>,
                                               extra: seq<Field>)

  datatype Document = Document(header: Header, files: seq<FilesParagraph>, licenses: seq<LicenseParagraph>)

  const HEADER_KEYS := ["format", "upstream-name", "upstream-contact", "source", "comment"]
  const FILES_KEYS := ["files", "copyright", "license", "comment"]
  const LICENSE_KEYS := ["license", "comment"]

  // ----- a paragraph as the fields it is written with -----

  function HeaderFields(h: Header): seq<Field> {
    [Field("format", h.formatUrl)] + Optional("upstream-name", h.upstreamName)
    + Optional("upstream-contact", h.upstreamContact) + Optional("source", h.source)
    + Optional("comment", h.comment) + h.extra
  }

  /** The name of a license and, on the lines after it, its text. */
  function LicenseValue(name: string, text: Option<string>): string {
    if text.Some? then name + "\n" + text.value else name
  }

  function FilesFields(p: FilesParagraph): seq<Field> {
    [Field("files", JoinWords(p.files)), Field("copyright", p.copyright),
     Field("license", LicenseValue(p.licenseName, p.licenseText))]
    + Optional("comment", p.comment) + p.extra
  }

  function LicenseFields(p: LicenseParagraph): seq<Field> {
    [Field("license", LicenseValue(p.licenseName, if p.licenseText != "" then Some(p.licenseText) else None))]
    + Optional("comment", p.comment) + p.extra
  }

  // ----- what a written document keeps -----

  /** A key as the parser stores it. */
  predicate GoodKey(key: string) {
    Lower(key) == key && Stripped(key) && OneLine(key) && ':' !in key
  }

  /** Lines after the first are empty or not blank. */
  predicate GoodRest(lines: seq<string>) {
    forall l :: l in lines ==> l == "" || !Blank(l)
  }

  /** The lines of a value: the first one has no outer blanks. */
  predicate GoodLines(lines: seq<string>) {
    lines != [] && Stripped(lines[0]) && GoodRest(lines[1..])
  }

  predicate GoodValue(value: string) {
    GoodLines(Split(value))
  }

  predicate GoodOptional(value: Option<string>) {
    value.Some? ==> GoodValue(value.value)
  }

  predicate GoodField(f: Field) {
    GoodKey(f.name) && GoodValue(f.value)
  }

  predicate GoodFields(fields: seq<Field>) {
    Distinct(fields) && forall f :: f in fields ==> GoodField(f)
  }

  predicate GoodName(name: string) {
    OneLine(name) && Stripped(name)
  }

  predicate GoodText(text: Option<string>) {
    text.Some? ==> GoodRest(Split(text.value))
  }

  predicate GoodHeader(h: Header) {
    && GoodValue(h.formatUrl) && GoodOptional(h.upstreamName) && GoodOptional(h.upstreamContact)
    && GoodOptional(h.source) && GoodOptional(h.comment)
    && GoodFields(h.extra) && NoneNamed(h.extra, HEADER_KEYS)
  }

  predicate GoodFiles(p: FilesParagraph) {
    && AllWords(p.files) && GoodValue(p.copyright) && GoodName(p.licenseName)
    && GoodText(p.licenseText)
    && GoodOptional(p.comment) && GoodFields(p.extra) && NoneNamed(p.extra, FILES_KEYS)
  }

  predicate GoodLicense(p: LicenseParagraph) {
    && GoodName(p.licenseName) && GoodText(Some(p.licenseText))
    && GoodOptional(p.comment) && GoodFields(p.extra) && NoneNamed(p.extra, ["files"] + LICENSE_KEYS)
  }

  predicate GoodDocument(d: Document) {
    && GoodHeader(d.header)
    && (forall p :: p in d.files ==> GoodFiles(p))
    && (forall p :: p in d.licenses ==> GoodLicense(p))
  }

  // ----- lone dots -----

  /** A lone dot stands for an empty line. */
  function UndotLine(line: string): string {
    if line == "." then "" else line
  }

  function UndotRest(lines: seq<string>): (r: seq<string>)
    ensures |r| == |lines|
  {
    seq(|lines|, i requires 0 <= i < |lines| => UndotLine(lines[i]))
  }

  function UndotLines(lines: seq<string>): (r: seq<string>)
    requires lines != []
    ensures |r| == |lines|
  {
    [lines[0]] + UndotRest(lines[1..])
  }

  function UndotValue(value: string): string {
    JoinLines(UndotLines(Split(value)))
  }

  function UndotText(text: string): string {
    JoinLines(UndotRest(Split(text)))
  }

  function UndotOptional(value: Option<string>): Option<string> {
    if value.Some? then Some(UndotValue(value.value)) else None
  }

  function UndotOptionalText(text: Option<string>): Option<string> {
    if text.Some? then Some(UndotText(text.value)) else None
  }

  function UndotField(f: Field): Field {
    Field(f.name, UndotValue(f.value))
  }

  function UndotFields(fields: seq<Field>): (r: seq<Field>)
    ensures |r| == |fields|
  {
    seq(|fields|, i requires 0 <= i < |fields| => UndotField(fields[i]))
  }

  function UndotHeader(h: Header): Header {
    Header(UndotValue(h.formatUrl), UndotOptional(h.upstreamName), UndotOptional(h.upstreamContact),
           UndotOptional(h.source), UndotOptional(h.comment), UndotFields(h.extra))
  }

  function UndotFiles(p: FilesParagraph): FilesParagraph {
    FilesParagraph(p.files, UndotValue(p.copyright), p.licenseName,
                   UndotOptionalText(p.licenseText), UndotOptional(p.comment), UndotFields(p.extra))
  }

  function UndotLicense(p: LicenseParagraph): LicenseParagraph {
    LicenseParagraph(p.licenseName, UndotText(p.licenseText), UndotOptional(p.comment), UndotFields(p.extra))
  }

  function UndotAllFiles(ps: seq<FilesParagraph>): (r: seq<FilesParagraph>)
    ensures |r| == |ps|
  {
    seq(|ps|, i requires 0 <= i < |ps| => UndotFiles(ps[i]))
  }

  function UndotAllLicenses(ps: seq<LicenseParagraph>): (r: seq<LicenseParagraph>)
    ensures |r| == |ps|
  {
    seq(|ps|, i requires 0 <= i < |ps| => UndotLicense(ps[i]))
  }

  function UndotDocument(d: Document): Document {
    Document(UndotHeader(d.header),
             UndotAllFiles(d.files), UndotAllLicenses(d.licenses))
  }
}
