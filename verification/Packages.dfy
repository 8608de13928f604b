/** Binary package metadata in Packages index files: reading, writing and the round trip. */
module Packages {
  import opened Results
  import opened Lines
  import opened Stanzas
  import opened Dictionaries
  import opened Decimals
  import opened SourceField

  datatype PackageMetadata = PackageMetadata(
    packageName: string, version: string, architecture: string, filename: string, sha256: string, sizeBytes: int,
    sourcePackage: string, sourceVersion: string,
    homepage: Option<string>, maintainer: Option<string>, depends: Option<string>, provided: Option<string>,
    section: Option<string>, priority: Option<string>, description: Option<string>)

  // ----- fields with their continuation lines -----

  datatype Reading = Reading(fields: seq<Field>, key: Option<string>, lines: seq<string>)

  const START := Reading([], None, [])

  function Saved(r: Reading): seq<Field> {
    if r.key.Some? then Put(r.fields, r.key.value, JoinLines(r.lines)) else r.fields
  }

  function ReadLine(r: Reading, line: string): Reading {
    if IsContinuation(line) then
      if r.key.Some? then r.(lines := r.lines + [line[1..]]) else r
    else if ':' !in line then Reading(Saved(r), None, [])
    else
      var c := ColonIndex(line);
      Reading(Saved(r), Some(line[..c]), [Strip(line[c + 1..])])
  }

  function ReadLines(r: Reading, lines: seq<string>): Reading {
    if lines == [] then r else ReadLine(ReadLines(r, lines[..|lines| - 1]), lines[|lines| - 1])
  }

  function FieldsOf(lines: seq<string>): seq<Field> {
    Saved(ReadLines(START, lines))
  }

  lemma ReadLinesStep(lines: seq<string>)
    ensures ReadLines(START, lines[..0]) == START && lines[..|lines|] == lines
    ensures forall i :: 0 <= i < |lines|
                        ==> ReadLines(START, lines[..i + 1]) == ReadLine(ReadLines(START, lines[..i]), lines[i])
  {
    hide ReadLine;
    forall i | 0 <= i < |lines|
      ensures ReadLines(START, lines[..i + 1]) == ReadLine(ReadLines(START, lines[..i]), lines[i])
    {
      assert lines[..i + 1][..i] == lines[..i];
    }
  }

  method ParseWithContinuations(stanza: string) returns (fields: seq<Field>)
    ensures fields == FieldsOf(Split(stanza))
  {
    hide ReadLines, Split, ColonIndex, Strip, Put, JoinLines;
    fields := [];
    var currentKey: Option<string> := None;
    var currentLines: seq<string> := [];
    var lines := Split(stanza);
    ReadLinesStep(lines);
    for i := 0 to |lines|
      invariant Reading(fields, currentKey, currentLines) == ReadLines(START, lines[..i])
    {
      var line := lines[i];
      if IsContinuation(line) {
        if currentKey.Some? {
          currentLines := currentLines + [line[1..]];
        }
      } else {
        if currentKey.Some? {
          fields := Put(fields, currentKey.value, JoinLines(currentLines));
        }
        if ':' !in line {
          currentKey, currentLines := None, [];
        } else {
          var colon := ColonIndex(line);
          currentKey, currentLines := Some(line[..colon]), [Strip(line[colon + 1..])];
        }
      }
    }
    if currentKey.Some? {
      fields := Put(fields, currentKey.value, JoinLines(currentLines));
    }
  }

  // ----- metadata -----

  function OrNone(value: Option<string>): Option<string> {
    if value == Some("") then None else value
  }

  function MetadataOf(fields: seq<Field>): Option<PackageMetadata> {
    var package, version, architecture := Find(fields, "Package"), Find(fields, "Version"), Find(fields, "Architecture");
    var filename, sha256, size := Find(fields, "Filename"), Find(fields, "SHA256"), Find(fields, "Size");
    if package.None? || version.None? || architecture.None? || filename.None? || sha256.None? || size.None? then None
    else
      match ParseInt(Strip(size.value))
      case None => None
      case Some(bytes) =>
        if bytes < 0 then None
        else
          var (sourcePackage, sourceVersion) := InferSource(Find(fields, "Source"), package.value, version.value);
          Some(PackageMetadata(
                 package.value, version.value, architecture.value, filename.value, sha256.value, bytes,
                 sourcePackage, sourceVersion,
                 OrNone(Find(fields, "Homepage")), OrNone(Find(fields, "Maintainer")), OrNone(Find(fields, "Depends")),
                 OrNone(Find(fields, "Provides")), OrNone(Find(fields, "Section")), OrNone(Find(fields, "Priority")),
                 OrNone(Find(fields, "Description"))))
  }

  function AllMetadata(blocks: seq<seq<string>>): seq<PackageMetadata> {
    if blocks == [] then []
    else
      AllMetadata(blocks[..|blocks| - 1])
      + match MetadataOf(FieldsOf(blocks[|blocks| - 1])) case None => [] case Some(m) => [m]
  }

  method Parse(content: string) returns (results: seq<PackageMetadata>)
    ensures results == AllMetadata(Blocks(content))
  {
    hide *;
    var stanzas := SplitStanzas(content);
    results := [];
    ghost var blocks := Blocks(content);
    BlockTexts(content);
    MetadataSteps(blocks);
    for i := 0 to |stanzas|
      invariant results == AllMetadata(blocks[..i])
    {
      var fields := ParseWithContinuations(stanzas[i]);
      var metadata := MetadataOf(fields);
      if metadata.Some? {
        results := results + [metadata.value];
      }
    }
  }

  lemma MetadataSteps(blocks: seq<seq<string>>)
    ensures AllMetadata(blocks[..0]) == [] && blocks[..|blocks|] == blocks
    ensures forall i :: 0 <= i < |blocks| ==>
              AllMetadata(blocks[..i + 1])
              == AllMetadata(blocks[..i]) + match MetadataOf(FieldsOf(blocks[i])) case None => [] case Some(m) => [m]
  {
    hide MetadataOf, FieldsOf;
    forall i | 0 <= i < |blocks|
      ensures AllMetadata(blocks[..i + 1])
              == AllMetadata(blocks[..i]) + match MetadataOf(FieldsOf(blocks[i])) case None => [] case Some(m) => [m]
    {
      assert blocks[..i + 1][..i] == blocks[..i];
    }
  }

  // ----- writing -----

  const KEYS := ["Package", "Version", "Architecture", "Filename", "SHA256", "Size", "Source", "Homepage", "Maintainer",
                 "Depends", "Provides", "Section", "Priority", "Description"]

  function Numeral(n: int): string {
    if n < 0 then "-" + Decimal(-n) else Decimal(n)
  }

  /** The Source field, when it says something the binary's own name and version do not. */
  function SourceOf(m: PackageMetadata): Option<string> {
    if m.sourceVersion != m.version then Some(Versioned(m.sourcePackage, m.sourceVersion))
    else if m.sourcePackage != m.packageName then Some(m.sourcePackage)
    else None
  }

  function Values(m: PackageMetadata): (vs: seq<Option<string>>)
    ensures |vs| == |KEYS|
  {
    [Some(m.packageName), Some(m.version), Some(m.architecture), Some(m.filename), Some(m.sha256),
     Some(Numeral(m.sizeBytes)), SourceOf(m), m.homepage, m.maintainer, m.depends, m.provided, m.section, m.priority,
     m.description]
  }

  /** The fields with the first so many keys. */
  function FirstFields(m: PackageMetadata, n: nat): seq<Field>
    requires n <= |KEYS|
  {
    KnownTo(KEYS, Values(m), n)
  }

  /** The lines of a field: its continuation lines begin with a blank. */
  function FieldLines(f: Field): (ls: seq<string>)
    ensures |ls| == |Split(f.value)|
  {
    var parts := Split(f.value);
    seq(|parts|, i requires 0 <= i < |parts| => if i == 0 then f.name + ": " + parts[0] else " " + parts[i])
  }

  /** What is written for a field: only a description has its continuation lines marked. */
  function Piece(f: Field): string {
    if f.name == "Description" then JoinLines(FieldLines(f)) else f.name + ": " + f.value
  }

  function Pieces(fields: seq<Field>): (ps: seq<string>)
    ensures |ps| == |fields|
  {
    seq(|fields|, i requires 0 <= i < |fields| => Piece(fields[i]))
  }

  function Formatted(m: PackageMetadata): string {
    JoinLines(Pieces(FirstFields(m, |KEYS|)))
  }

  /** The lines written so far are those of the first so many keys. */
  predicate Wrote(lines: seq<string>, m: PackageMetadata, n: nat)
    requires n <= |KEYS|
  {
    && JoinLines(lines) == JoinLines(Pieces(FirstFields(m, n)))
    && (n == 0 <==> lines == []) && (n > 0 ==> FirstFields(m, n) != [])
  }

  lemma JoinOneMore(lines: seq<string>, piece: string)
    ensures JoinLines(lines + [piece]) == if lines == [] then piece else JoinLines(lines) + "\n" + piece
  {
    assert (lines + [piece])[..|lines|] == lines;
  }

  lemma WroteOneMore(lines: seq<string>, m: PackageMetadata, n: nat, more: seq<string>)
    requires n < |KEYS| && Wrote(lines, m, n)
    requires n == 0 ==> Values(m)[0].Some?
    requires more != [] ==> Values(m)[n].Some? && JoinLines(more) == Piece(Field(KEYS[n], Values(m)[n].value))
    requires more == [] ==> Values(m)[n].None?
    ensures Wrote(lines + more, m, n + 1)
  {
    var fields := FirstFields(m, n);
    if Values(m)[n].Some? {
      var f := Field(KEYS[n], Values(m)[n].value);
      assert FirstFields(m, n + 1) == fields + [f];
      hide Values, FirstFields, Piece;
      assert Pieces(fields + [f]) == Pieces(fields) + [Piece(f)];
      JoinOneMore(Pieces(fields), Piece(f));
      if lines == [] {
        assert lines + more == more;
      } else {
        JoinAppend(lines, more);
      }
    } else {
      assert FirstFields(m, n + 1) == fields + [];
      hide Values, FirstFields, Piece;
      assert fields + [] == fields && lines + more == lines;
    }
  }

  method AppendRequired(lines: seq<string>, ghost m: PackageMetadata, ghost n: nat, name: string, value: string)
    returns (r: seq<string>)
    requires n < |KEYS| && Wrote(lines, m, n)
    requires name == KEYS[n] && name != "Description" && Values(m)[n] == Some(value)
    ensures Wrote(r, m, n + 1)
  {
    hide Wrote, Values;
    WroteOneMore(lines, m, n, [name + ": " + value]);
    r := lines + [name + ": " + value];
  }

  method AppendOptional(lines: seq<string>, ghost m: PackageMetadata, ghost n: nat, name: string, value: Option<string>)
    returns (r: seq<string>)
    requires 0 < n < |KEYS| && Wrote(lines, m, n)
    requires name == KEYS[n] && name != "Description" && Values(m)[n] == value
    ensures Wrote(r, m, n + 1)
  {
    hide Wrote, Values;
    r := lines;
    if value.Some? {
      WroteOneMore(lines, m, n, [name + ": " + value.value]);
      r := r + [name + ": " + value.value];
    } else {
      WroteOneMore(lines, m, n, []);
      assert lines + [] == lines;
    }
  }

  method AppendDescription(lines: seq<string>, ghost m: PackageMetadata, value: Option<string>)
    returns (r: seq<string>)
    requires Wrote(lines, m, 13) && m.description == value
    ensures Wrote(r, m, 14)
  {
    hide Wrote, Values, JoinLines, Split, FirstFields;
    ghost var before := lines;
    r := lines;
    ValuesOf(m);
    KeysAt();
    if value.None? {
      WroteOneMore(before, m, 13, []);
      assert lines + [] == lines;
      return;
    }
    var descLines := Split(value.value);
    ghost var all := FieldLines(Field("Description", value.value));
    r := r + ["Description: " + descLines[0]];
    assert "Description" + ": " == "Description: ";
    for i := 1 to |descLines|
      invariant r == before + all[..i]
    {
      r := r + [" " + descLines[i]];
    }
    assert all[..|all|] == all;
    WroteOneMore(before, m, 13, all);
  }

  lemma NothingWritten(m: PackageMetadata)
    ensures Wrote([], m, 0)
  {
  }

  lemma ValuesOf(m: PackageMetadata)
    ensures var vs := Values(m);
            && vs[0] == Some(m.packageName) && vs[1] == Some(m.version) && vs[2] == Some(m.architecture)
            && vs[3] == Some(m.filename) && vs[4] == Some(m.sha256) && vs[5] == Some(Numeral(m.sizeBytes))
            && vs[6] == SourceOf(m) && vs[7] == m.homepage && vs[8] == m.maintainer && vs[9] == m.depends
            && vs[10] == m.provided && vs[11] == m.section && vs[12] == m.priority && vs[13] == m.description
  {
    hide SourceOf, Numeral;
  }

  lemma KeysAt()
    ensures KEYS[0] == "Package" && KEYS[1] == "Version" && KEYS[2] == "Architecture" && KEYS[3] == "Filename"
    ensures KEYS[4] == "SHA256" && KEYS[5] == "Size" && KEYS[6] == "Source" && KEYS[7] == "Homepage"
    ensures KEYS[8] == "Maintainer" && KEYS[9] == "Depends" && KEYS[10] == "Provides" && KEYS[11] == "Section"
    ensures KEYS[12] == "Priority" && KEYS[13] == "Description" && |KEYS| == 14
  {
  }

  method Format(m: PackageMetadata) returns (text: string)
    ensures text == Formatted(m)
  {
    NothingWritten(m);
    ValuesOf(m);
    KeysAt();
    hide KEYS, Wrote, Values, FirstFields, Numeral, JoinLines, Split;
    var lines := AppendRequired([], m, 0, "Package", m.packageName);
    lines := AppendRequired(lines, m, 1, "Version", m.version);
    lines := AppendRequired(lines, m, 2, "Architecture", m.architecture);
    lines := AppendRequired(lines, m, 3, "Filename", m.filename);
    lines := AppendRequired(lines, m, 4, "SHA256", m.sha256);
    lines := AppendRequired(lines, m, 5, "Size", Numeral(m.sizeBytes));
    var nameDiffers, versionDiffers := m.sourcePackage != m.packageName, m.sourceVersion != m.version;
    var source: Option<string> := None;
    if nameDiffers && versionDiffers {
      source := Some(m.sourcePackage + " (" + m.sourceVersion + ")");
    } else if nameDiffers {
      source := Some(m.sourcePackage);
    } else if versionDiffers {
      source := Some(m.sourcePackage + " (" + m.sourceVersion + ")");
    }
    lines := AppendOptional(lines, m, 6, "Source", source);
    lines := AppendOptional(lines, m, 7, "Homepage", m.homepage);
    lines := AppendOptional(lines, m, 8, "Maintainer", m.maintainer);
    lines := AppendOptional(lines, m, 9, "Depends", m.depends);
    lines := AppendOptional(lines, m, 10, "Provides", m.provided);
    lines := AppendOptional(lines, m, 11, "Section", m.section);
    lines := AppendOptional(lines, m, 12, "Priority", m.priority);
    lines := AppendDescription(lines, m, m.description);
    text := JoinLines(lines);
    AllWritten(lines, m);
  }

  lemma AllWritten(lines: seq<string>, m: PackageMetadata)
    requires Wrote(lines, m, 14)
    ensures JoinLines(lines) == Formatted(m)
  {
  }
}
