/** The text of a stanza of an index, field by field. */
module PackagesText {
  import opened Results
  import opened Lines
  import opened Stanzas
  import opened PrintLaws
  import opened Dictionaries
  import opened Decimals
  import opened NumberLaws
  import opened SourceField
  import opened Packages

  function More(name: string, value: string): string {
    "\n" + name + ": " + value
  }

  function MoreIf(name: string, value: Option<string>): string {
    if value.Some? then More(name, value.value) else ""
  }

  /** The source is written when its name or its version is not the package's, and its version when that is not. */
  function WrittenSource(m: PackageMetadata): string {
    if m.sourceVersion != m.version then More("Source", m.sourcePackage + " (" + m.sourceVersion + ")")
    else if m.sourcePackage != m.packageName then More("Source", m.sourcePackage)
    else ""
  }

  function WrittenMetadata(m: PackageMetadata): string {
    "Package: " + m.packageName + More("Version", m.version) + More("Architecture", m.architecture)
    + More("Filename", m.filename) + More("SHA256", m.sha256) + More("Size", Numeral(m.sizeBytes))
    + WrittenSource(m) + MoreIf("Homepage", m.homepage) + MoreIf("Maintainer", m.maintainer)
    + MoreIf("Depends", m.depends) + MoreIf("Provides", m.provided) + MoreIf("Section", m.section)
    + MoreIf("Priority", m.priority)
    + (if m.description.Some? then More("Description", Shifted(m.description.value)) else "")
  }

  /** The text of the first so many fields. */
  function TextTo(m: PackageMetadata, n: nat): string
    requires n <= |KEYS|
  {
    JoinLines(Pieces(FirstFields(m, n)))
  }

  lemma FieldsStep(m: PackageMetadata, n: nat)
    requires n < |KEYS|
    ensures FirstFields(m, n + 1) == FirstFields(m, n) + Optional(KEYS[n], Values(m)[n])
  {
    hide KEYS, Values;
  }

  lemma PiecesSnoc(fields: seq<Field>, f: Field)
    ensures Pieces(fields + [f]) == Pieces(fields) + [Piece(f)]
  {
    hide Piece;
  }

  lemma TextStep(m: PackageMetadata, n: nat)
    requires n < |KEYS|
    requires n > 0 ==> FirstFields(m, n) != []
    ensures var value := Values(m)[n];
            && (value.None? ==> TextTo(m, n + 1) == TextTo(m, n))
            && (value.Some? ==>
                  TextTo(m, n + 1)
                  == (if n == 0 then "" else TextTo(m, n) + "\n") + Piece(Field(KEYS[n], value.value)))
    ensures n > 0 || Values(m)[n].Some? ==> FirstFields(m, n + 1) != []
  {
    FieldsStep(m, n);
    hide KEYS, Values, Piece, JoinLines;
    var fields, value := FirstFields(m, n), Values(m)[n];
    if value.Some? {
      var f := Field(KEYS[n], value.value);
      NoFieldsYet(m);
      hide FirstFields, Pieces;
      PiecesSnoc(fields, f);
      JoinOneMore(Pieces(fields), Piece(f));
      assert "" + Piece(f) == Piece(f);
    } else {
      assert fields + [] == fields;
    }
  }

  lemma NoFieldsYet(m: PackageMetadata)
    ensures FirstFields(m, 0) == []
  {
    hide KEYS, Values;
  }

  lemma DescriptionLines(name: string, value: string)
    ensures JoinLines(FieldLines(Field(name, value))) == name + ": " + Shifted(value)
  {
    hide Split, JoinLines, Shifted;
    MarkedText(value);
    var ms := Marks(Split(value), false);
    assert FieldLines(Field(name, value)) == [(name + ": ") + ms[0]] + ms[1..];
    hide Marks;
    JoinPrefixed(name + ": ", ms);
  }

  lemma PieceIs(name: string, value: string)
    ensures "\n" + Piece(Field(name, value)) == More(name, if name == "Description" then Shifted(value) else value)
  {
    hide JoinLines, FieldLines, Shifted;
    if name == "Description" {
      DescriptionLines(name, value);
      Regroup("\n", name + ": ", Shifted(value));
    } else {
      Regroup("\n", name + ": ", value);
    }
    Regroup("\n", name, ": ");
  }

  lemma TextMore(m: PackageMetadata, n: nat)
    requires 0 < n < |KEYS| && FirstFields(m, n) != []
    ensures FirstFields(m, n + 1) != []
    ensures TextTo(m, n + 1)
            == TextTo(m, n) + (if Values(m)[n].None? then ""
                               else More(KEYS[n], if KEYS[n] == "Description" then Shifted(Values(m)[n].value)
                                                  else Values(m)[n].value))
  {
    TextStep(m, n);
    hide KEYS, Values, Piece, TextTo, FirstFields, More, Shifted;
    if Values(m)[n].Some? {
      PieceIs(KEYS[n], Values(m)[n].value);
      Regroup(TextTo(m, n), "\n", Piece(Field(KEYS[n], Values(m)[n].value)));
    } else {
      assert TextTo(m, n) + "" == TextTo(m, n);
    }
  }

  lemma SourceText(m: PackageMetadata)
    ensures WrittenSource(m) == if SourceOf(m).None? then "" else More("Source", SourceOf(m).value)
  {
  }

  /** Every stanza is written as this text. */
  lemma FormattedIs(m: PackageMetadata)
    ensures Formatted(m) == WrittenMetadata(m)
  {
    ValuesOf(m);
    KeysAt();
    hide KEYS, Values, Piece, FirstFields, Shifted, Numeral, SourceOf, WrittenSource, TextTo, More;
    TextStep(m, 0);
    PackagePiece(m.packageName);
    SourceText(m);
    TextMore(m, 1);
    TextMore(m, 2);
    TextMore(m, 3);
    TextMore(m, 4);
    TextMore(m, 5);
    TextMore(m, 6);
    TextMore(m, 7);
    TextMore(m, 8);
    TextMore(m, 9);
    TextMore(m, 10);
    TextMore(m, 11);
    TextMore(m, 12);
    TextMore(m, 13);
    AllText(m);
  }

  lemma PackagePiece(name: string)
    ensures "" + Piece(Field("Package", name)) == "Package: " + name
  {
    assert "Package" + ": " == "Package: ";
  }

  lemma AllText(m: PackageMetadata)
    ensures |KEYS| == 14 && Formatted(m) == TextTo(m, 14)
  {
    KeysAt();
    hide KEYS;
  }

  /** A size is written in digits only, which are read as that size. */
  lemma SizeText(n: nat)
    ensures Writes(Numeral(n), n) && forall i :: 0 <= i < |Numeral(n)| ==> IsFigure(Numeral(n)[i])
  {
    DecimalValue(n);
    DigitsAre(Decimal(n), n);
    hide Decimal, Grouped, Ungrouped, Places, DigitsValue;
  }
}
