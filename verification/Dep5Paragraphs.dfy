/** Each kind of copyright paragraph is read back from the fields it is written with. */
module Dep5Paragraphs {
  import opened Results
  import opened Lines
  import opened Stanzas
  import opened Dictionaries
  import opened Dep5Document
  import opened Dep5Parser
  import opened Dep5Kinds

  function HeaderValues(h: Header): seq<Option<string>> {
    [Some(h.formatUrl), h.upstreamName, h.upstreamContact, h.source, h.comment]
  }

  function FilesValues(p: FilesParagraph): seq<Option<string>> {
    [Some(JoinWords(p.files)), Some(p.copyright), Some(LicenseValue(p.licenseName, p.licenseText)), p.comment]
  }

  function LicenseValues(p: LicenseParagraph): seq<Option<string>> {
    [Some(LicenseValue(p.licenseName, if p.licenseText != "" then Some(p.licenseText) else None)), p.comment]
  }

  lemma KeysAreGood()
    ensures GoodKeys(HEADER_KEYS) && GoodKeys(FILES_KEYS) && GoodKeys(LICENSE_KEYS)
  {
    hide GoodKey;
    forall k | k in HEADER_KEYS + FILES_KEYS + LICENSE_KEYS
      ensures GoodKey(k)
    {
      KnownKeyIsGood(k);
    }
  }

  lemma KnownKeyIsGood(k: string)
    requires k in HEADER_KEYS + FILES_KEYS + LICENSE_KEYS
    ensures GoodKey(k)
  {
    assert forall i :: 0 <= i < |k| ==> ('a' <= k[i] <= 'z' || k[i] == '-');
    assert Lower(k) == k;
  }

  lemma HeaderIsKnown(h: Header)
    ensures HeaderFields(h) == Known(HEADER_KEYS, HeaderValues(h), 0) + h.extra
  {
    var ks, vs := HEADER_KEYS, HeaderValues(h);
    hide Optional;
    assert Known(ks, vs, 5) == [];
    assert Known(ks, vs, 4) == Optional("comment", h.comment) + Known(ks, vs, 5);
    assert Known(ks, vs, 3) == Optional("source", h.source) + Known(ks, vs, 4);
    assert Known(ks, vs, 2) == Optional("upstream-contact", h.upstreamContact) + Known(ks, vs, 3);
    assert Known(ks, vs, 1) == Optional("upstream-name", h.upstreamName) + Known(ks, vs, 2);
    assert Known(ks, vs, 0) == Optional("format", Some(h.formatUrl)) + Known(ks, vs, 1);
    FirstIsGiven("format", h.formatUrl);
  }

  lemma FirstIsGiven(key: string, value: string)
    ensures Optional(key, Some(value)) == [Field(key, value)]
  {
  }

  lemma FilesAreKnown(p: FilesParagraph)
    ensures FilesFields(p) == Known(FILES_KEYS, FilesValues(p), 0) + p.extra
  {
    var ks, vs := FILES_KEYS, FilesValues(p);
    var license := vs[2].value;
    hide Optional, JoinWords;
    assert Known(ks, vs, 4) == [];
    assert Known(ks, vs, 3) == Optional("comment", p.comment) + Known(ks, vs, 4);
    assert Known(ks, vs, 2) == Optional("license", vs[2]) + Known(ks, vs, 3);
    assert Known(ks, vs, 1) == Optional("copyright", vs[1]) + Known(ks, vs, 2);
    assert Known(ks, vs, 0) == Optional("files", vs[0]) + Known(ks, vs, 1);
    FirstIsGiven("files", JoinWords(p.files));
    FirstIsGiven("copyright", p.copyright);
    FirstIsGiven("license", license);
  }

  lemma LicenseIsKnown(p: LicenseParagraph)
    ensures LicenseFields(p) == Known(LICENSE_KEYS, LicenseValues(p), 0) + p.extra
  {
    var ks, vs := LICENSE_KEYS, LicenseValues(p);
    hide Optional;
    assert Known(ks, vs, 2) == [];
    assert Known(ks, vs, 1) == Optional("comment", p.comment) + Known(ks, vs, 2);
    assert Known(ks, vs, 0) == Optional("license", vs[0]) + Known(ks, vs, 1);
    FirstIsGiven("license", vs[0].value);
  }

  lemma HeaderIsReadBack(h: Header)
    requires GoodHeader(h)
    ensures GoodFields(HeaderFields(h))
    ensures UndotFields(HeaderFields(h)) == HeaderFields(UndotHeader(h)) && GoodHeader(UndotHeader(h))
    ensures HeaderOf(HeaderFields(h)) == Ok(h)
  {
    var ks, vs, u := HEADER_KEYS, HeaderValues(h), UndotHeader(h);
    KeysAreGood();
    hide GoodFields, GoodValue, UndotValue, UndotFields, NoneNamed, GoodKeys;
    KnownIsGood(ks, vs, h.extra, 0);
    HeaderIsKnown(h);
    HeaderIsKnown(u);
    assert UndotAll(vs) == HeaderValues(u);
    UndotKnown(ks, vs, h.extra, 0);
    UndotOptionalsAreGood(vs);
    UndotFieldsAreGood(h.extra, ks);
    assert forall v :: v in HeaderValues(u) ==> GoodOptional(v);
    assert GoodHeader(u) by {
      assert HeaderValues(u)[0] in HeaderValues(u) && HeaderValues(u)[1] in HeaderValues(u);
      assert HeaderValues(u)[2] in HeaderValues(u) && HeaderValues(u)[3] in HeaderValues(u);
      assert HeaderValues(u)[4] in HeaderValues(u);
    }
    HeaderIsFound(h);
  }

  lemma UndotOptionalsAreGood(values: seq<Option<string>>)
    requires AllOptional(values)
    ensures AllOptional(UndotAll(values))
  {
    hide GoodOptional, UndotOptional;
    forall v | v in UndotAll(values)
      ensures GoodOptional(v)
    {
      var i :| 0 <= i < |values| && UndotAll(values)[i] == v;
      assert values[i] in values;
      UndotOptionalIsGood(values[i]);
    }
  }

  lemma HeaderIsFound(h: Header)
    requires NoneNamed(h.extra, HEADER_KEYS)
    ensures HeaderOf(HeaderFields(h)) == Ok(h)
  {
    var ks, vs := HEADER_KEYS, HeaderValues(h);
    KeysAreGood();
    HeaderIsKnown(h);
    assert ks[0] == "format" && ks[1] == "upstream-name" && ks[2] == "upstream-contact";
    assert ks[3] == "source" && ks[4] == "comment";
    assert DistinctKeys(ks);
    hide Known, HeaderFields, NoneNamed, DistinctKeys, Find, Extra;
    FindKnown(ks, vs, h.extra, 0, 0);
    FindKnown(ks, vs, h.extra, 0, 1);
    FindKnown(ks, vs, h.extra, 0, 2);
    FindKnown(ks, vs, h.extra, 0, 3);
    FindKnown(ks, vs, h.extra, 0, 4);
    ExtraOfKnown(ks, vs, h.extra);
  }

  lemma FilesAreReadBack(p: FilesParagraph, index: nat)
    requires GoodFiles(p)
    ensures GoodFields(FilesFields(p)) && GoodFiles(UndotFiles(p))
    ensures UndotFields(FilesFields(p)) == FilesFields(UndotFiles(p))
    ensures Find(FilesFields(p), "files").Some? && FilesOf(FilesFields(p), index) == Ok(p)
  {
    var ks, vs, u := FILES_KEYS, FilesValues(p), UndotFiles(p);
    KeysAreGood();
    hide GoodFields, GoodValue, GoodText, UndotValue, UndotOptionalText, UndotFields, NoneNamed, GoodKeys, AllWords,
      GoodName, FilesFields, LicenseValue, JoinWords, Find, FilesOf;
    FilesValuesAreGood(p);
    KnownIsGood(ks, vs, p.extra, 0);
    FilesAreKnown(p);
    FilesAreKnown(u);
    UndotKnown(ks, vs, p.extra, 0);
    UndotFieldsAreGood(p.extra, ks);
    UndotOptionalIsGood(p.comment);
    UndotSplits(p.copyright);
    UndotTextIsGood(p.licenseText);
    FilesAreFound(p, index);
  }

  lemma UndotTextIsGood(text: Option<string>)
    requires GoodText(text)
    ensures GoodText(UndotOptionalText(text))
  {
    if text.Some? {
      UndotTextSplits(text.value);
    }
  }

  lemma FilesValuesAreGood(p: FilesParagraph)
    requires GoodFiles(p)
    ensures AllOptional(FilesValues(p))
    ensures UndotAll(FilesValues(p)) == FilesValues(UndotFiles(p))
  {
    hide JoinWords, UndotValue, UndotOptionalText, GoodValue, GoodText, UndotFields, AllWords, GoodName, NoneNamed,
      GoodFields, LicenseValue;
    WordsAreGood(p.files);
    LicenseIsGood(p.licenseName, p.licenseText);
    UndotLicenseValue(p.licenseName, p.licenseText);
    var vs, us := FilesValues(p), UndotAll(FilesValues(p));
    assert GoodOptional(vs[0]) && GoodOptional(vs[1]) && GoodOptional(vs[2]) && GoodOptional(vs[3]);
    assert us == [UndotOptional(vs[0]), UndotOptional(vs[1]), UndotOptional(vs[2]), UndotOptional(vs[3])];
  }

  lemma FilesAreFound(p: FilesParagraph, index: nat)
    requires AllWords(p.files) && GoodName(p.licenseName) && NoneNamed(p.extra, FILES_KEYS)
    ensures Find(FilesFields(p), "files").Some? && FilesOf(FilesFields(p), index) == Ok(p)
  {
    var ks, vs := FILES_KEYS, FilesValues(p);
    KeysAreGood();
    FilesAreKnown(p);
    assert ks[0] == "files" && ks[1] == "copyright" && ks[2] == "license" && ks[3] == "comment";
    assert DistinctKeys(ks);
    hide Known, FilesFields, NoneNamed, DistinctKeys, Find, Extra, AllWords, GoodName, Split, Strip, WordsFrom,
      JoinWords, JoinLines, LicenseValue;
    WordsOfJoined(p.files);
    LicenseSplits(p.licenseName, p.licenseText);
    FindKnown(ks, vs, p.extra, 0, 0);
    FindKnown(ks, vs, p.extra, 0, 1);
    FindKnown(ks, vs, p.extra, 0, 2);
    FindKnown(ks, vs, p.extra, 0, 3);
    ExtraOfKnown(ks, vs, p.extra);
  }

  lemma LicenseIsReadBack(p: LicenseParagraph)
    requires GoodLicense(p)
    ensures GoodFields(LicenseFields(p)) && GoodLicense(UndotLicense(p))
    ensures var fields := UndotFields(LicenseFields(p));
            && Find(fields, "files").None? && Find(fields, "license").Some?
            && LicenseOf(fields) == UndotLicense(p)
  {
    hide LicenseFields, GoodFields, NoneNamed, GoodValue, GoodText, UndotFields, UndotValue, UndotText, GoodName,
      LicenseOf, Find, LicenseValue;
    var ks, vs, u := LICENSE_KEYS, LicenseValues(p), UndotLicense(p);
    var text := if p.licenseText != "" then Some(p.licenseText) else None;
    KeysAreGood();
    NotNamed(p.extra, ["files"], ks);
    UndotFieldsAreGood(p.extra, ["files"] + ks);
    NotNamed(u.extra, ["files"], ks);
    LicenseValuesAreGood(p, text);
    KnownIsGood(ks, vs, p.extra, 0);
    LicenseIsKnown(p);
    UndotKnown(ks, vs, p.extra, 0);
    NothingToUndot();
    LicenseIsFound(UndotAll(vs), UndotOptionalText(text), u);
    UndotTextIsGood(Some(p.licenseText));
    UndotOptionalIsGood(p.comment);
  }

  lemma LicenseValuesAreGood(p: LicenseParagraph, text: Option<string>)
    requires GoodLicense(p) && text == if p.licenseText != "" then Some(p.licenseText) else None
    ensures AllOptional(LicenseValues(p))
    ensures UndotAll(LicenseValues(p))
            == [Some(LicenseValue(p.licenseName, UndotOptionalText(text))), UndotOptional(p.comment)]
  {
    hide UndotValue, UndotOptionalText, GoodValue, UndotFields, GoodName, NoneNamed, GoodFields, LicenseValue, GoodRest;
    LicenseIsGood(p.licenseName, text);
    UndotLicenseValue(p.licenseName, text);
    var vs, us := LicenseValues(p), UndotAll(LicenseValues(p));
    assert GoodOptional(vs[0]) && GoodOptional(vs[1]);
    assert us == [UndotOptional(vs[0]), UndotOptional(vs[1])];
  }

  lemma NothingToUndot()
    ensures UndotText("") == ""
  {
    var none := "";
    assert Split(none) == [none];
    assert UndotRest([none]) == [none];
  }

  lemma NotNamed(fields: seq<Field>, a: seq<string>, b: seq<string>)
    requires NoneNamed(fields, a + b)
    ensures NoneNamed(fields, a) && NoneNamed(fields, b)
  {
    forall f | f in fields
      ensures f.name !in a && f.name !in b
    {
      assert forall k :: k in a + b <==> k in a || k in b;
    }
  }

  lemma LicenseIsFound(values: seq<Option<string>>, text: Option<string>, p: LicenseParagraph)
    requires GoodName(p.licenseName) && NoneNamed(p.extra, ["files"]) && NoneNamed(p.extra, LICENSE_KEYS)
    requires values == [Some(LicenseValue(p.licenseName, text)), p.comment]
    requires p.licenseText == if text.Some? then text.value else ""
    ensures var fields := Known(LICENSE_KEYS, values, 0) + p.extra;
            && Find(fields, "files").None? && Find(fields, "license").Some?
            && LicenseOf(fields) == p
  {
    hide Known, NoneNamed, DistinctKeys, Find, Extra, GoodName, GoodKey, Split, Strip, JoinLines, LicenseValue;
    var ks := LICENSE_KEYS;
    KeysAreGood();
    assert ks[0] == "license" && ks[1] == "comment" && DistinctKeys(ks);
    NoFilesKey(values, p.extra);
    LicenseSplits(p.licenseName, text);
    FindKnown(ks, values, p.extra, 0, 0);
    FindKnown(ks, values, p.extra, 0, 1);
    ExtraOfKnown(ks, values, p.extra);
  }

  lemma NoFilesKey(values: seq<Option<string>>, extra: seq<Field>)
    requires |values| == 2 && NoneNamed(extra, ["files"])
    ensures Find(Known(LICENSE_KEYS, values, 0) + extra, "files").None?
  {
    KnownNames(LICENSE_KEYS, values, 0);
    var fields := Known(LICENSE_KEYS, values, 0) + extra;
    hide Known, Find;
    FindNone(fields, "files");
  }
}
