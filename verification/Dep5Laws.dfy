/** What is read from a copyright file, and what is refused, told from its lines and fields. */
module Dep5Laws {
  import opened Results
  import opened Letters
  import opened Lines
  import opened LineLaws
  import opened Stanzas
  import opened StanzaLaws
  import opened Dictionaries
  import opened DictionaryLaws
  import opened Dep5Document
  import opened Dep5Parser

  // ----- fields -----

  /** A line after the first one of a field: without its indentation, and empty for a lone dot. */
  function LaterLine(line: string): string {
    if !Indented(line) then line
    else if line[1..] == "." then ""
    else line[1..]
  }

  function LaterLines(lines: seq<string>): (ls: seq<string>)
    ensures |ls| == |lines|
  {
    seq(|lines|, i requires 0 <= i < |lines| => LaterLine(lines[i]))
  }

  lemma LaterLinesSnoc(lines: seq<string>)
    requires lines != []
    ensures LaterLines(lines) == LaterLines(lines[..|lines| - 1]) + [LaterLine(lines[|lines| - 1])]
  {
    hide LaterLine;
  }

  lemma ReadOne(before: seq<string>, line: string)
    ensures ReadLines(START, before + [line]) == ReadLine(ReadLines(START, before), line)
  {
    hide ReadLine;
    assert (before + [line])[..|before|] == before;
  }

  lemma {:induction false} MoreIsGathered(before: seq<string>, r: Reading, more: seq<string>)
    requires ReadLines(START, before) == r && NoneStarts(more)
    ensures ReadLines(START, before + more)
            == if r.current.Some? then r.(lines := r.lines + LaterLines(more)) else r
  {
    hide ReadLines, LaterLines, Starts;
    if more == [] {
      assert before + more == before && r.lines + LaterLines([]) == r.lines;
    } else {
      var n := |more| - 1;
      StartsIs(more[n]);
      MoreIsGathered(before, r, more[..n]);
      LaterLinesSnoc(more);
      assert before + more == (before + more[..n]) + [more[n]];
      ReadOne(before + more[..n], more[n]);
      hide IsContinuation, ColonIndex;
      assert r.lines + LaterLines(more) == (r.lines + LaterLines(more[..n])) + [LaterLine(more[n])];
    }
  }

  /** Each line that starts a field assigns to its name, in lower case and stripped, what it and all lines up to
      the next such line say. */
  lemma OneMoreField(before: seq<string>, name: string, text: string, more: seq<string>)
    requires !Indented(name + ":") && ':' !in name && NoneStarts(more)
    ensures Dep5Parser.FieldsOf(before + [name + ":" + text] + more)
            == Put(Dep5Parser.FieldsOf(before), Lower(Strip(name)), JoinLines([Strip(text)] + LaterLines(more)))
  {
    hide ReadLines, Put, JoinLines, Strip, Lower, LaterLines, NoneStarts;
    var header := name + ":" + text;
    assert header[|name|] == ':' && header[..|name|] == name && header[|name| + 1..] == text;
    ColonAt(header, |name|);
    assert header[0] == (name + ":")[0];
    StartsIs(header);
    hide ColonIndex;
    ReadOne(before, header);
    MoreIsGathered(before + [header], ReadLine(ReadLines(START, before), header), more);
  }

  lemma OnlyLater(more: seq<string>)
    requires NoneStarts(more)
    ensures Dep5Parser.FieldsOf(more) == []
  {
    MoreIsGathered([], START, more);
    assert [] + more == more;
  }

  // ----- paragraphs -----

  ghost predicate MayHold(fields: seq<Field>, key: string, value: Option<string>) {
    if value.Some? then Holds(fields, key, value.value) else Lacks(fields, key)
  }

  /** The fields with other names, in order. */
  ghost predicate OthersAre(fields: seq<Field>, keys: seq<string>, extra: seq<Field>)
    decreases |fields|
  {
    if fields == [] then extra == []
    else
      var n := |fields| - 1;
      if fields[n].name in keys then OthersAre(fields[..n], keys, extra)
      else extra != [] && extra[|extra| - 1] == fields[n] && OthersAre(fields[..n], keys, extra[..|extra| - 1])
  }

  /** A license value: the first line is its name, the others its text. */
  ghost predicate NamesLicense(value: string, name: string, text: Option<string>) {
    exists first: string ::
      && OneLine(first) && name == Strip(first)
      && value == if text.Some? then first + "\n" + text.value else first
  }

  ghost predicate SaysHeader(fields: seq<Field>, h: Header) {
    && Holds(fields, "format", h.formatUrl) && MayHold(fields, "upstream-name", h.upstreamName)
    && MayHold(fields, "upstream-contact", h.upstreamContact) && MayHold(fields, "source", h.source)
    && MayHold(fields, "comment", h.comment)
    && OthersAre(fields, ["format", "upstream-name", "upstream-contact", "source", "comment"], h.extra)
  }

  ghost predicate SaysFiles(fields: seq<Field>, p: FilesParagraph) {
    && (exists value: string :: Holds(fields, "files", value) && WordsAre(value, p.files))
    && Holds(fields, "copyright", p.copyright)
    && (exists value: string :: Holds(fields, "license", value) && NamesLicense(value, p.licenseName, p.licenseText))
    && MayHold(fields, "comment", p.comment)
    && OthersAre(fields, ["files", "copyright", "license", "comment"], p.extra)
  }

  ghost predicate SaysLicense(fields: seq<Field>, p: LicenseParagraph) {
    && (exists value: string, text: Option<string> ::
          && Holds(fields, "license", value) && NamesLicense(value, p.licenseName, text)
          && p.licenseText == if text.Some? then text.value else "")
    && MayHold(fields, "comment", p.comment)
    && OthersAre(fields, ["license", "comment"], p.extra)
  }

  lemma {:induction false} OthersIs(fields: seq<Field>, keys: seq<string>, extra: seq<Field>)
    ensures OthersAre(fields, keys, extra) <==> Extra(fields, keys) == extra
    decreases |fields|
  {
    if fields != [] {
      var n := |fields| - 1;
      assert fields == fields[..n] + [fields[n]];
      ExtraIs(fields[..n], fields[n], keys);
      assert Extra(fields[..n], keys) + [] == Extra(fields[..n], keys);
      if fields[n].name in keys {
        OthersIs(fields[..n], keys, extra);
      } else {
        var others := Extra(fields[..n], keys);
        if extra != [] {
          OthersIs(fields[..n], keys, extra[..|extra| - 1]);
          assert extra == extra[..|extra| - 1] + [extra[|extra| - 1]];
        }
        assert (others + [fields[n]])[..|others|] == others;
      }
    }
  }

  lemma MayHoldIs(fields: seq<Field>, key: string, value: Option<string>)
    ensures MayHold(fields, key, value) <==> Find(fields, key) == value
  {
    FindHolds(fields, key);
    hide Holds, Lacks, Find;
  }

  lemma LicenseParts(value: string, first: string, text: Option<string>)
    requires OneLine(first) && value == if text.Some? then first + "\n" + text.value else first
    ensures var lines := Split(value);
            && lines[0] == first && (|lines| > 1 <==> text.Some?)
            && (text.Some? ==> JoinLines(lines[1..]) == text.value)
  {
    SplitOneLine(first);
    hide Split, JoinLines, OneLine;
    if text.Some? {
      SplitBetween(first, text.value);
      SplitIsLines(text.value);
      assert Split(value)[1..] == Split(text.value);
    }
  }

  lemma FirstLineOf(value: string)
    ensures var lines := Split(value);
            && OneLine(lines[0])
            && value == if |lines| > 1 then lines[0] + "\n" + JoinLines(lines[1..]) else lines[0]
  {
    var lines := Split(value);
    SplitIsLines(value);
    hide Split, OneLine;
    assert lines[0] in lines;
    if |lines| > 1 {
      JoinAppend(lines[..1], lines[1..]);
      assert lines == lines[..1] + lines[1..];
      assert JoinLines(lines[..1]) == lines[0];
    }
  }

  lemma NamesLicenseIs(value: string, name: string, text: Option<string>)
    ensures NamesLicense(value, name, text) <==>
            var lines := Split(value);
            name == Strip(lines[0]) && text == if |lines| > 1 then Some(JoinLines(lines[1..])) else None
  {
    hide Split, JoinLines, OneLine, Strip;
    FirstLineOf(value);
    if first: string :| OneLine(first) && name == Strip(first)
                        && value == if text.Some? then first + "\n" + text.value else first {
      LicenseParts(value, first, text);
    }
  }

  lemma HeaderIs(fields: seq<Field>, h: Header)
    ensures HeaderOf(fields) == Ok(h) <==> SaysHeader(fields, h)
    ensures HeaderOf(fields).Err? <==> Lacks(fields, "format")
    ensures HeaderOf(fields).Err? ==> HeaderOf(fields).error == MissingField("Format", 0)
  {
    hide Holds, Lacks, Find, MayHold, OthersAre, Extra;
    FindHolds(fields, "format");
    MayHoldIs(fields, "upstream-name", h.upstreamName);
    MayHoldIs(fields, "upstream-contact", h.upstreamContact);
    MayHoldIs(fields, "source", h.source);
    MayHoldIs(fields, "comment", h.comment);
    OthersIs(fields, ["format", "upstream-name", "upstream-contact", "source", "comment"], h.extra);
  }

  lemma FilesIs(fields: seq<Field>, index: nat, p: FilesParagraph)
    requires !Lacks(fields, "files")
    ensures FilesOf(fields, index) == Ok(p) <==> SaysFiles(fields, p)
    ensures FilesOf(fields, index).Err? <==> Lacks(fields, "copyright") || Lacks(fields, "license")
    ensures FilesOf(fields, index).Err? ==>
              FilesOf(fields, index).error
              == MissingField(if Lacks(fields, "copyright") then "Copyright" else "License", index)
  {
    hide Holds, Lacks, Find, MayHold, OthersAre, Extra, Words, WordsAre, NamesLicense, Split, Strip, JoinLines;
    FindHolds(fields, "files");
    FindHolds(fields, "copyright");
    FindHolds(fields, "license");
    MayHoldIs(fields, "comment", p.comment);
    OthersIs(fields, ["files", "copyright", "license", "comment"], p.extra);
    var files, license := Find(fields, "files"), Find(fields, "license");
    WordsIs(files.value, p.files);
    assert Holds(fields, "files", files.value);
    if license.Some? {
      NamesLicenseIs(license.value, p.licenseName, p.licenseText);
      assert Holds(fields, "license", license.value);
    }
  }

  lemma LicenseIs(fields: seq<Field>, p: LicenseParagraph)
    requires Find(fields, "license").Some?
    ensures LicenseOf(fields) == p <==> SaysLicense(fields, p)
  {
    hide Holds, Lacks, Find, MayHold, OthersAre, Extra, NamesLicense, Split, Strip, JoinLines;
    FindHolds(fields, "license");
    MayHoldIs(fields, "comment", p.comment);
    OthersIs(fields, ["license", "comment"], p.extra);
    var value := Find(fields, "license").value;
    forall text: Option<string>
      ensures NamesLicense(value, p.licenseName, text) <==>
              var lines := Split(value);
              p.licenseName == Strip(lines[0]) && text == if |lines| > 1 then Some(JoinLines(lines[1..])) else None
    {
      NamesLicenseIs(value, p.licenseName, text);
    }
    var lines := Split(value);
    var text := if |lines| > 1 then Some(JoinLines(lines[1..])) else None;
    assert Holds(fields, "license", value);
    assert LicenseOf(fields) == p ==> NamesLicense(value, p.licenseName, text);
  }

  // ----- documents -----

  /** The paragraphs after the header, each of its kind and in order; those of no kind are ignored. */
  ghost predicate SaysBody(paragraphs: seq<seq<Field>>, files: seq<FilesParagraph>, licenses: seq<LicenseParagraph>)
    decreases |paragraphs|
  {
    if paragraphs == [] then files == [] && licenses == []
    else
      var fields, rest := paragraphs[0], paragraphs[1..];
      if !Lacks(fields, "files") then files != [] && SaysFiles(fields, files[0]) && SaysBody(rest, files[1..], licenses)
      else if !Lacks(fields, "license") then
        licenses != [] && SaysLicense(fields, licenses[0]) && SaysBody(rest, files, licenses[1..])
      else SaysBody(rest, files, licenses)
  }

  ghost predicate SaysDocument(paragraphs: seq<seq<Field>>, d: Document) {
    paragraphs != [] && SaysHeader(paragraphs[0], d.header) && SaysBody(paragraphs[1..], d.files, d.licenses)
  }

  /** A paragraph about files that does not say everything about them. */
  predicate Deficient(fields: seq<Field>) {
    !Lacks(fields, "files") && (Lacks(fields, "copyright") || Lacks(fields, "license"))
  }

  /** The first of the paragraphs that is deficient. */
  predicate FirstDeficient(paragraphs: seq<seq<Field>>, i: nat) {
    && i < |paragraphs| && Deficient(paragraphs[i])
    && forall j :: 0 <= j < i ==> !Deficient(paragraphs[j])
  }

  function MissingIn(fields: seq<Field>, index: nat): DEP5ParseError {
    MissingField(if Lacks(fields, "copyright") then "Copyright" else "License", index)
  }

  lemma {:induction false} BodyIs(paragraphs: seq<seq<Field>>, index: nat, files: seq<FilesParagraph>,
                                  licenses: seq<LicenseParagraph>)
    ensures BodyOf(paragraphs, index) == Ok(Body(files, licenses)) ==> SaysBody(paragraphs, files, licenses)
    ensures SaysBody(paragraphs, files, licenses) ==> BodyOf(paragraphs, index) == Ok(Body(files, licenses))
    decreases |paragraphs|
  {
    hide Lacks, SaysFiles, SaysLicense, FilesOf, LicenseOf, Find;
    if paragraphs != [] {
      var fields, rest := paragraphs[0], paragraphs[1..];
      FindHolds(fields, "files");
      FindHolds(fields, "license");
      hide Holds;
      if !Lacks(fields, "files") {
        if FilesOf(fields, index).Ok? {
          FilesIs(fields, index, FilesOf(fields, index).value);
        }
        if files != [] {
          FilesIs(fields, index, files[0]);
          BodyIs(rest, index + 1, files[1..], licenses);
        }
        PrefixedIs(if FilesOf(fields, index).Ok? then [FilesOf(fields, index).value] else [], [],
                   BodyOf(rest, index + 1), files, licenses);
      } else if !Lacks(fields, "license") {
        if licenses != [] {
          LicenseIs(fields, licenses[0]);
          BodyIs(rest, index + 1, files, licenses[1..]);
        }
        LicenseIs(fields, LicenseOf(fields));
        PrefixedIs([], [LicenseOf(fields)], BodyOf(rest, index + 1), files, licenses);
      } else {
        BodyIs(rest, index + 1, files, licenses);
      }
    }
  }

  lemma PrefixedIs(f: seq<FilesParagraph>, l: seq<LicenseParagraph>, rest: Result<Body, DEP5ParseError>,
                   files: seq<FilesParagraph>, licenses: seq<LicenseParagraph>)
    requires |f| + |l| <= 1
    ensures Prefixed(f, l, rest) == Ok(Body(files, licenses)) <==>
            && |f| <= |files| && f == files[..|f|] && |l| <= |licenses| && l == licenses[..|l|]
            && rest == Ok(Body(files[|f|..], licenses[|l|..]))
  {
    if rest.Ok? && |f| <= |files| && |l| <= |licenses| {
      assert files == files[..|f|] + files[|f|..] && licenses == licenses[..|l|] + licenses[|l|..];
      assert (f + rest.value.files)[|f|..] == rest.value.files && (l + rest.value.licenses)[|l|..] == rest.value.licenses;
      assert (f + rest.value.files)[..|f|] == f && (l + rest.value.licenses)[..|l|] == l;
    }
  }

  lemma {:induction false} BodyIsRefused(paragraphs: seq<seq<Field>>, index: nat)
    ensures BodyOf(paragraphs, index).Err? <==> exists i: nat :: FirstDeficient(paragraphs, i)
    ensures forall i: nat :: FirstDeficient(paragraphs, i) ==>
              BodyOf(paragraphs, index) == Err(MissingIn(paragraphs[i], index + i))
    decreases |paragraphs|
  {
    hide Lacks, FilesOf, LicenseOf, Find, Deficient;
    if paragraphs != [] {
      var fields, rest := paragraphs[0], paragraphs[1..];
      FindHolds(fields, "files");
      FindHolds(fields, "license");
      hide Holds;
      BodyIsRefused(rest, index + 1);
      OneIsRefused(fields, index, BodyOf(rest, index + 1));
      forall i: nat
        ensures !Deficient(fields) ==> (FirstDeficient(paragraphs, i + 1) <==> FirstDeficient(rest, i))
      {
        if !Deficient(fields) {
          LaterDeficient(paragraphs, i);
        }
      }
      if Deficient(fields) {
        assert FirstDeficient(paragraphs, 0);
      }
      forall i: nat | FirstDeficient(paragraphs, i)
        ensures BodyOf(paragraphs, index) == Err(MissingIn(paragraphs[i], index + i))
      {
        if i > 0 {
          assert FirstDeficient(rest, i - 1) by {
            LaterDeficient(paragraphs, i - 1);
          }
        }
      }
    }
  }

  lemma LaterDeficient(paragraphs: seq<seq<Field>>, i: nat)
    requires paragraphs != [] && !Deficient(paragraphs[0])
    ensures FirstDeficient(paragraphs, i + 1) <==> FirstDeficient(paragraphs[1..], i)
  {
    hide Deficient;
    var rest := paragraphs[1..];
    assert forall j :: 1 <= j < |paragraphs| ==> paragraphs[j] == rest[j - 1];
    if FirstDeficient(paragraphs, i + 1) {
      assert forall j :: 0 <= j < i ==> rest[j] == paragraphs[j + 1];
    }
  }

  lemma OneIsRefused(fields: seq<Field>, index: nat, rest: Result<Body, DEP5ParseError>)
    ensures WithParagraph(fields, index, rest).Err? <==> Deficient(fields) || rest.Err?
    ensures Deficient(fields) ==> WithParagraph(fields, index, rest) == Err(MissingIn(fields, index))
    ensures !Deficient(fields) && rest.Err? ==> WithParagraph(fields, index, rest) == rest
  {
    hide Lacks, FilesOf, LicenseOf, Find;
    FindHolds(fields, "files");
    FindHolds(fields, "license");
    hide Holds;
    if !Lacks(fields, "files") {
      var p := FilesParagraph([], "", "", None, None, []);
      FilesIs(fields, index, if FilesOf(fields, index).Ok? then FilesOf(fields, index).value else p);
    }
  }

  /** A document is what its paragraphs say, kind by kind and in order. */
  lemma DocumentIs(paragraphs: seq<seq<Field>>, d: Document)
    ensures DocumentOf(paragraphs) == Ok(d) <==> SaysDocument(paragraphs, d)
  {
    hide HeaderOf, BodyOf, SaysHeader, SaysBody;
    if paragraphs != [] {
      HeaderIs(paragraphs[0], d.header);
      BodyIs(paragraphs[1..], 1, d.files, d.licenses);
    }
  }

  /**
   * A file is refused exactly if it has no paragraphs, the first one has no format, or a later one has files but
   * no copyright or no license; the error names the first paragraph of this kind and its first missing field.
   */
  lemma RefusedExactly(text: string)
    ensures var ps := AllFields(Blocks(text));
            && (Read(text).Err? <==>
                ps == [] || Lacks(ps[0], "format") || exists i: nat :: FirstDeficient(ps[1..], i))
            && (ps == [] ==> Read(text) == Err(NoContent))
            && (ps != [] && Lacks(ps[0], "format") ==> Read(text) == Err(MissingField("Format", 0)))
            && forall i: nat :: ps != [] && !Lacks(ps[0], "format") && FirstDeficient(ps[1..], i) ==>
                 Read(text) == Err(MissingIn(ps[1..][i], i + 1))
  {
    hide HeaderOf, BodyOf, Lacks, FirstDeficient, MissingIn, Blocks, AllFields;
    var ps := AllFields(Blocks(text));
    if ps != [] {
      var h := Header("", None, None, None, None, []);
      HeaderIs(ps[0], if HeaderOf(ps[0]).Ok? then HeaderOf(ps[0]).value else h);
      BodyIsRefused(ps[1..], 1);
    }
  }
}
