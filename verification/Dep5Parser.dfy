/** Reading a machine-readable copyright document. */
module Dep5Parser {
  import opened Results
  import opened Lines
  import opened Stanzas
  import opened Dictionaries
  import opened Dep5Document

  datatype DEP5ParseError = NoContent | MissingField(name: string, paragraph: nat)

  // ----- the fields of one paragraph -----

  /** Fields saved so far, and the field being read with its lines. */
  datatype Reading = Reading(fields: seq<Field>, current: Option<string>, lines: seq<string>)

  const START := Reading([], None, [])

  function Saved(r: Reading): seq<Field> {
    if r.current.Some? then Put(r.fields, r.current.value, JoinLines(r.lines)) else r.fields
  }

  function ReadLine(r: Reading, line: string): Reading {
    if IsContinuation(line) then
      if r.current.None? then r else r.(lines := r.lines + [UndotLine(line[1..])])
    else if ':' in line then
      var c := ColonIndex(line);
      Reading(Saved(r), Some(Lower(Strip(line[..c]))), [Strip(line[c + 1..])])
    else if r.current.Some? then r.(lines := r.lines + [line])
    else r
  }

  function ReadLines(r: Reading, lines: seq<string>): Reading {
    if lines == [] then r else ReadLine(ReadLines(r, lines[..|lines| - 1]), lines[|lines| - 1])
  }

  function FieldsOf(lines: seq<string>): seq<Field> {
    Saved(ReadLines(START, lines))
  }

  // ----- the kinds of paragraph -----

  function HeaderOf(fields: seq<Field>): Result<Header, DEP5ParseError> {
    match Find(fields, "format")
    case None => Err(MissingField("Format", 0))
    case Some(url) => Ok(Header(url, Find(fields, "upstream-name"), Find(fields, "upstream-contact"),
                                Find(fields, "source"), Find(fields, "comment"), Extra(fields, HEADER_KEYS)))
  }

  function FilesOf(fields: seq<Field>, index: nat): Result<FilesParagraph, DEP5ParseError> {
    var files, copyright, license := Find(fields, "files"), Find(fields, "copyright"), Find(fields, "license");
    if files.None? then Err(MissingField("Files", index))
    else if copyright.None? then Err(MissingField("Copyright", index))
    else if license.None? then Err(MissingField("License", index))
    else
      var lines := Split(license.value);
      Ok(FilesParagraph(Words(files.value), copyright.value, Strip(lines[0]),
                        if |lines| > 1 then Some(JoinLines(lines[1..])) else None,
                        Find(fields, "comment"), Extra(fields, FILES_KEYS)))
  }

  function LicenseOf(fields: seq<Field>): LicenseParagraph
    requires Find(fields, "license").Some?
  {
    var lines := Split(Find(fields, "license").value);
    LicenseParagraph(Strip(lines[0]), if |lines| > 1 then JoinLines(lines[1..]) else "",
                     Find(fields, "comment"), Extra(fields, LICENSE_KEYS))
  }

  // ----- the document -----

  datatype Body = Body(files: seq<FilesParagraph>, licenses: seq<LicenseParagraph>)

  /** The paragraphs after the header, the first of them with the given index. */
  function BodyOf(paragraphs: seq<seq<Field>>, index: nat): Result<Body, DEP5ParseError> {
    if paragraphs == [] then Ok(Body([], []))
    else WithParagraph(paragraphs[0], index, BodyOf(paragraphs[1..], index + 1))
  }

  /** One paragraph, by its kind, before those still to come; one that is neither kind is ignored. */
  function WithParagraph(fields: seq<Field>, index: nat, rest: Result<Body, DEP5ParseError>)
    : Result<Body, DEP5ParseError>
  {
    if Find(fields, "files").Some? then
      var p :- FilesOf(fields, index);
      Prefixed([p], [], rest)
    else if Find(fields, "license").Some? then Prefixed([], [LicenseOf(fields)], rest)
    else rest
  }

  /** Paragraphs before those still to come. */
  function Prefixed(files: seq<FilesParagraph>, licenses: seq<LicenseParagraph>, rest: Result<Body, DEP5ParseError>)
    : Result<Body, DEP5ParseError>
  {
    match rest
    case Err(e) => Err(e)
    case Ok(b) => Ok(Body(files + b.files, licenses + b.licenses))
  }

  function DocumentOf(paragraphs: seq<seq<Field>>): Result<Document, DEP5ParseError> {
    if paragraphs == [] then Err(NoContent)
    else
      var header :- HeaderOf(paragraphs[0]);
      var body :- BodyOf(paragraphs[1..], 1);
      Ok(Document(header, body.files, body.licenses))
  }

  function AllFields(blocks: seq<seq<string>>): (ps: seq<seq<Field>>)
    ensures |ps| == |blocks|
  {
    seq(|blocks|, i requires 0 <= i < |blocks| => FieldsOf(blocks[i]))
  }

  function Read(text: string): Result<Document, DEP5ParseError> {
    DocumentOf(AllFields(Blocks(text)))
  }

  // ----- the parser -----

  lemma ReadLinesStep(lines: seq<string>)
    ensures ReadLines(START, lines[..0]) == START && lines[..|lines|] == lines
    ensures forall i :: 0 <= i < |lines|
                        ==> ReadLines(START, lines[..i + 1]) == ReadLine(ReadLines(START, lines[..i]), lines[i])
  {
    hide ReadLine;
    forall i | 0 <= i < |lines|
      ensures ReadLines(START, lines[..i + 1]) == ReadLine(ReadLines(START, lines[..i]), lines[i])
    {
      assert lines[..i + 1][..i] == lines[..i];
    }
  }

  lemma ExtraStep(fields: seq<Field>, known: seq<string>)
    ensures Extra(fields[..0], known) == [] && fields[..|fields|] == fields
    ensures forall i :: 0 <= i < |fields|
                        ==> Extra(fields[..i + 1], known)
                            == Extra(fields[..i], known) + (if fields[i].name in known then [] else [fields[i]])
  {
    forall i | 0 <= i < |fields|
      ensures Extra(fields[..i + 1], known)
              == Extra(fields[..i], known) + (if fields[i].name in known then [] else [fields[i]])
    {
      assert fields[..i + 1] == fields[..i] + [fields[i]];
      ExtraInTwo(fields[..i], [fields[i]], known);
    }
  }

  class DEP5Parser {

    constructor () {
    }

    method SplitParagraphs(text: string) returns (paragraphs: seq<string>)
      ensures paragraphs == Texts(Blocks(text))
    {
      hide JoinLines, Blank, Split;
      paragraphs := [];
      var current: seq<string> := [];
      var lines := Split(text);
      ghost var closed: seq<seq<string>> := [];
      assert lines[0..] == lines;
      for i := 0 to |lines|
        invariant paragraphs == Texts(closed)
        invariant closed + BlocksFrom(lines[i..], current) == Blocks(text)
      {
        var line := lines[i];
        assert lines[i..][0] == line && lines[i..][1..] == lines[i + 1..];
        StripIsStripped(line);
        if Strip(line) == "" {
          if current != [] {
            paragraphs := paragraphs + [JoinLines(current)];
            closed := closed + [current];
            current := [];
          }
        } else {
          current := current + [line];
        }
      }
      if current != [] {
        paragraphs := paragraphs + [JoinLines(current)];
        closed := closed + [current];
      }
    }

    method ParseFields(paragraph: string) returns (fields: seq<Field>)
      ensures fields == FieldsOf(Split(paragraph))
    {
      hide ReadLines, Split, ColonIndex, Strip, Put, JoinLines;
      fields := [];
      var currentField: Option<string> := None;
      var currentLines: seq<string> := [];
      var lines := Split(paragraph);
      ReadLinesStep(lines);
      for i := 0 to |lines|
        invariant Reading(fields, currentField, currentLines) == ReadLines(START, lines[..i])
      {
        var line := lines[i];
        if IsContinuation(line) {
          if currentField.Some? {
            var continuation := line[1..];
            if continuation == "." {
              currentLines := currentLines + [""];
            } else {
              currentLines := currentLines + [continuation];
            }
          }
        } else if ':' in line {
          if currentField.Some? {
            fields := Put(fields, currentField.value, JoinLines(currentLines));
          }
          var colonPos := ColonIndex(line);
          currentField := Some(Lower(Strip(line[..colonPos])));
          currentLines := [Strip(line[colonPos + 1..])];
        } else if currentField.Some? {
          currentLines := currentLines + [line];
        }
      }
      if currentField.Some? {
        fields := Put(fields, currentField.value, JoinLines(currentLines));
      }
    }

    method ExtraFields(fields: seq<Field>, known: seq<string>) returns (extra: seq<Field>)
      ensures extra == Extra(fields, known)
    {
      ExtraStep(fields, known);
      hide Extra;
      extra := [];
      for i := 0 to |fields|
        invariant extra == Extra(fields[..i], known)
      {
        if fields[i].name !in known {
          extra := extra + [fields[i]];
        }
      }
    }

    method ParseHeader(fields: seq<Field>) returns (r: Result<Header, DEP5ParseError>)
      ensures r == HeaderOf(fields)
    {
      hide Find;
      var format := Find(fields, "format");
      if format.None? {
        return Err(MissingField("Format", 0));
      }
      var extra := ExtraFields(fields, HEADER_KEYS);
      r := Ok(Header(format.value, Find(fields, "upstream-name"), Find(fields, "upstream-contact"),
                     Find(fields, "source"), Find(fields, "comment"), extra));
    }

    method ParseFilesParagraph(fields: seq<Field>, index: nat) returns (r: Result<FilesParagraph, DEP5ParseError>)
      ensures r == FilesOf(fields, index)
    {
      hide Find, Split, JoinLines, Strip, Words, Extra;
      var required := [("files", "Files"), ("copyright", "Copyright"), ("license", "License")];
      for i := 0 to |required|
        invariant forall k :: 0 <= k < i ==> Find(fields, required[k].0).Some?
      {
        assert 0 < i ==> Find(fields, required[0].0).Some?;
        assert 1 < i ==> Find(fields, required[1].0).Some?;
        if Find(fields, required[i].0).None? {
          return Err(MissingField(required[i].1, index));
        }
      }
      assert Find(fields, required[0].0).Some? && Find(fields, required[1].0).Some?
          && Find(fields, required[2].0).Some?;
      var licenseLines := Split(Find(fields, "license").value);
      var licenseText: Option<string> := None;
      if |licenseLines| > 1 {
        licenseText := Some(JoinLines(licenseLines[1..]));
      }
      var extra := ExtraFields(fields, FILES_KEYS);
      r := Ok(FilesParagraph(Words(Find(fields, "files").value), Find(fields, "copyright").value,
                             Strip(licenseLines[0]), licenseText, Find(fields, "comment"), extra));
    }

    method ParseLicenseParagraph(fields: seq<Field>) returns (p: LicenseParagraph)
      requires Find(fields, "license").Some?
      ensures p == LicenseOf(fields)
    {
      hide Split, JoinLines, Strip, Extra;
      var licenseLines := Split(Find(fields, "license").value);
      var licenseText := if |licenseLines| > 1 then JoinLines(licenseLines[1..]) else "";
      var extra := ExtraFields(fields, LICENSE_KEYS);
      p := LicenseParagraph(Strip(licenseLines[0]), licenseText, Find(fields, "comment"), extra);
    }

    method Parse(text: string) returns (r: Result<Document, DEP5ParseError>)
      ensures r == Read(text)
    {
      if Strip(text) == "" {
        StripIsStripped(text);
        BlankLines(text);
        BlankTextHasNoBlocks(Split(text));
        return Err(NoContent);
      }
      hide *;
      var raw := SplitParagraphs(text);
      var paragraphs: seq<seq<Field>> := [];
      BlockFields(text);
      for i := 0 to |raw|
        invariant |raw| == |AllFields(Blocks(text))|
        invariant paragraphs == AllFields(Blocks(text))[..i]
      {
        var fields := ParseFields(raw[i]);
        paragraphs := paragraphs + [fields];
      }
      assert paragraphs == AllFields(Blocks(text));
      DocumentSteps(paragraphs);
      if paragraphs == [] {
        return Err(NoContent);
      }
      var header := ParseHeader(paragraphs[0]);
      if header.Err? {
        return Err(header.error);
      }
      var body := ParseBody(paragraphs);
      r := match body case Err(e) => Err(e) case Ok(b) => Ok(Document(header.value, b.files, b.licenses));
    }

    /** The loop of Parse over the paragraphs after the header. */
    method ParseBody(paragraphs: seq<seq<Field>>) returns (r: Result<Body, DEP5ParseError>)
      requires paragraphs != []
      ensures r == BodyOf(paragraphs[1..], 1)
    {
      hide *;
      var files: seq<FilesParagraph> := [];
      var licenses: seq<LicenseParagraph> := [];
      BodyEnds(paragraphs);
      After(files, licenses, BodyOf(paragraphs[1..], 1));
      for i := 1 to |paragraphs|
        invariant Prefixed(files, licenses, BodyOf(paragraphs[i..], i)) == BodyOf(paragraphs[1..], 1)
      {
        var fields := paragraphs[i];
        ghost var rest := BodyOf(paragraphs[i + 1..], i + 1);
        BodyUnfolds(paragraphs, i);
        if Find(fields, "files").Some? {
          FilesStep(fields, i, rest, files, licenses);
          var p := ParseFilesParagraph(fields, i);
          if p.Err? {
            return Err(p.error);
          }
          files := files + [p.value];
        } else if Find(fields, "license").Some? {
          LicenseStep(fields, i, rest, files, licenses);
          var p := ParseLicenseParagraph(fields);
          licenses := licenses + [p];
        } else {
          IgnoredStep(fields, i, rest);
        }
      }
      PrefixedNone(files, licenses);
      r := Ok(Body(files, licenses));
    }
  }

  // ----- steps of the loops -----

  lemma BlockFields(text: string)
    ensures var texts, all := Texts(Blocks(text)), AllFields(Blocks(text));
            |texts| == |all| && forall k :: 0 <= k < |all| ==> FieldsOf(Split(texts[k])) == all[k]
  {
    hide Blocks, Split, Texts, FieldsOf;
    BlockTexts(text);
  }

  lemma DocumentSteps(paragraphs: seq<seq<Field>>)
    ensures paragraphs == [] ==> DocumentOf(paragraphs) == Err(NoContent)
    ensures paragraphs != [] ==>
              DocumentOf(paragraphs)
              == match HeaderOf(paragraphs[0])
                 case Err(e) => Err(e)
                 case Ok(h) =>
                   match BodyOf(paragraphs[1..], 1)
                   case Err(e) => Err(e)
                   case Ok(b) => Ok(Document(h, b.files, b.licenses))
  {
    hide HeaderOf, BodyOf;
  }

  lemma After(files: seq<FilesParagraph>, licenses: seq<LicenseParagraph>, rest: Result<Body, DEP5ParseError>)
    requires files == [] && licenses == []
    ensures Prefixed(files, licenses, rest) == rest
  {
    if rest.Ok? {
      assert files + rest.value.files == rest.value.files && licenses + rest.value.licenses == rest.value.licenses;
    }
  }

  lemma BodyEnds(paragraphs: seq<seq<Field>>)
    requires paragraphs != []
    ensures BodyOf(paragraphs[|paragraphs|..], |paragraphs|) == Ok(Body([], []))
  {
  }

  lemma PrefixedNone(files: seq<FilesParagraph>, licenses: seq<LicenseParagraph>)
    ensures Prefixed(files, licenses, Ok(Body([], []))) == Ok(Body(files, licenses))
  {
    assert files + [] == files && licenses + [] == licenses;
  }

  lemma PrefixedTwice(files: seq<FilesParagraph>, licenses: seq<LicenseParagraph>,
                      moreFiles: seq<FilesParagraph>, moreLicenses: seq<LicenseParagraph>,
                      rest: Result<Body, DEP5ParseError>)
    ensures Prefixed(files, licenses, Prefixed(moreFiles, moreLicenses, rest))
            == Prefixed(files + moreFiles, licenses + moreLicenses, rest)
  {
    if rest.Ok? {
      var b := rest.value;
      assert files + (moreFiles + b.files) == (files + moreFiles) + b.files;
      assert licenses + (moreLicenses + b.licenses) == (licenses + moreLicenses) + b.licenses;
    }
  }

  lemma BodyUnfolds(paragraphs: seq<seq<Field>>, i: nat)
    requires i < |paragraphs|
    ensures BodyOf(paragraphs[i..], i) == WithParagraph(paragraphs[i], i, BodyOf(paragraphs[i + 1..], i + 1))
  {
    assert paragraphs[i..][0] == paragraphs[i] && paragraphs[i..][1..] == paragraphs[i + 1..];
    hide WithParagraph;
  }

  lemma FilesStep(fields: seq<Field>, index: nat, rest: Result<Body, DEP5ParseError>,
                  files: seq<FilesParagraph>, licenses: seq<LicenseParagraph>)
    requires Find(fields, "files").Some?
    ensures Prefixed(files, licenses, WithParagraph(fields, index, rest))
            == match FilesOf(fields, index)
               case Err(e) => Err(e)
               case Ok(p) => Prefixed(files + [p], licenses, rest)
  {
    hide Find, FilesOf;
    if FilesOf(fields, index).Ok? {
      PrefixedTwice(files, licenses, [FilesOf(fields, index).value], [], rest);
      assert licenses + [] == licenses;
      hide Prefixed;
    }
  }

  lemma IgnoredStep(fields: seq<Field>, index: nat, rest: Result<Body, DEP5ParseError>)
    requires Find(fields, "files").None? && Find(fields, "license").None?
    ensures WithParagraph(fields, index, rest) == rest
  {
    hide Find;
  }

  lemma LicenseStep(fields: seq<Field>, index: nat, rest: Result<Body, DEP5ParseError>,
                    files: seq<FilesParagraph>, licenses: seq<LicenseParagraph>)
    requires Find(fields, "files").None? && Find(fields, "license").Some?
    ensures Prefixed(files, licenses, WithParagraph(fields, index, rest))
            == Prefixed(files, licenses + [LicenseOf(fields)], rest)
  {
    hide Find, LicenseOf, Prefixed;
    PrefixedTwice(files, licenses, [], [LicenseOf(fields)], rest);
    assert files + [] == files;
  }
}
