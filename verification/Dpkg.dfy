/** The dpkg status file: reading stanzas and packages, writing stanzas, and the round trip. */
module Dpkg {
  import opened Results
  import opened Lines
  import opened Stanzas

  // ----- what a status file says -----

  /** The stanzas of a text: the fields of each of its blocks. */
  function ParseBlocks(blocks: seq<seq<string>>): (ss: seq<seq<Field>>)
    ensures |ss| == |blocks|
  {
    if blocks == [] then [] else [AddLines([], blocks[0])] + ParseBlocks(blocks[1..])
  }

  function ParseStanzas(content: string): seq<seq<Field>> {
    ParseBlocks(Blocks(content))
  }

  /** Equal up to the case of ASCII letters. */
  predicate SameName(a: string, b: string) {
    |a| == |b| && forall i :: 0 <= i < |a| ==> ToLower(a[i]) == ToLower(b[i])
  }

  function First(fields: seq<Field>, name: string): Option<string> {
    if fields == [] then None
    else if SameName(fields[0].name, name) then Some(fields[0].value)
    else First(fields[1..], name)
  }

  datatype IdentifiedPackage = IdentifiedPackage(name: string, version: string, architecture: string, status: string)

  datatype Diagnostic =
    | MissingFields(stanza: nat, names: seq<string>)
    | MalformedStatus(stanza: nat, status: string)
    | UnknownState(stanza: nat, name: string, state: string)
    | UnknownAction(stanza: nat, name: string, action: string)

  /** What dpkg wants of a package, and what it is: the first and third word of its Status. */
  datatype Verdict = Listed(package: IdentifiedPackage) | Reported(diagnostic: Diagnostic) | Dropped

  function Classify(fields: seq<Field>, number: nat): Verdict {
    var name, version := First(fields, "Package"), First(fields, "Version");
    var missing := (if name.None? then ["Package"] else []) + (if version.None? then ["Version"] else []);
    if missing != [] then Reported(MissingFields(number, missing))
    else
      match First(fields, "Status")
      case None => Reported(MissingFields(number, ["Status"]))
      case Some(status) =>
        var words := Words(status);
        if |words| < 3 then Reported(MalformedStatus(number, status))
        else if words[0] == "deinstall" || words[0] == "purge" then Dropped
        else if words[0] != "install" && words[0] != "hold" then
          Reported(UnknownAction(number, name.value, words[0]))
        else if words[2] != "installed" && words[2] != "config-files" then
          Reported(UnknownState(number, name.value, words[2]))
        else
          var architecture := First(fields, "Architecture");
          Listed(IdentifiedPackage(name.value, version.value,
                                   if architecture.Some? then architecture.value else "", words[2]))
  }

  function PackagesOf(stanzas: seq<seq<Field>>, number: nat): seq<IdentifiedPackage> {
    if stanzas == [] then []
    else (match Classify(stanzas[0], number) case Listed(p) => [p] case _ => []) + PackagesOf(stanzas[1..], number + 1)
  }

  function DiagnosticsOf(stanzas: seq<seq<Field>>, number: nat): seq<Diagnostic> {
    if stanzas == [] then []
    else (match Classify(stanzas[0], number) case Reported(d) => [d] case _ => [])
         + DiagnosticsOf(stanzas[1..], number + 1)
  }

  // ----- reading -----

  method Get(fields: seq<Field>, name: string) returns (value: Option<string>)
    ensures value == First(fields, name)
  {
    for i := 0 to |fields|
      invariant First(fields, name) == First(fields[i..], name)
    {
      assert fields[i..][0] == fields[i] && fields[i..][1..] == fields[i + 1..];
      if SameName(fields[i].name, name) {
        return Some(fields[i].value);
      }
    }
    value := None;
  }

  lemma {:induction false} StripKeepsWords(s: string)
    ensures Words(Strip(s)) == Words(s)
  {
    var l := StripLeft(s);
    LeftBlanksSeparateNothing(s);
    RightBlanksSeparateNothing(l, "");
  }

  lemma {:induction false} LeftBlanksSeparateNothing(s: string)
    ensures Words(StripLeft(s)) == Words(s)
  {
    if s != "" && IsSpace(s[0]) {
      LeftBlanksSeparateNothing(s[1..]);
    }
  }

  lemma {:induction false} BlankHasNoWords(s: string)
    requires Blank(s)
    ensures WordsFrom(s, "") == []
  {
    if s != "" {
      BlankHasNoWords(s[1..]);
    }
  }

  lemma {:induction false} RightBlanksSeparateNothing(s: string, current: string)
    ensures WordsFrom(StripRight(s), current) == WordsFrom(s, current)
  {
    var r := StripRight(s);
    if Blank(s) {
      assert r == "";
      if s != "" {
        BlankHasNoWords(s[1..]);
      }
    } else {
      StripRightTail(s);
      assert r[0] == s[0];
      RightBlanksSeparateNothing(s[1..], "");
      RightBlanksSeparateNothing(s[1..], current + [s[0]]);
    }
  }

  lemma StripRightStep(s: string)
    ensures s != "" ==> StripRight(s) == if IsSpace(s[|s| - 1]) then StripRight(s[..|s| - 1]) else s
    ensures !Blank(s) ==> s != ""
  {
    hide IsSpace;
  }

  lemma NothingStripped()
    ensures StripRight("") == ""
  {
  }

  lemma BlankInit(s: string)
    requires s != "" && IsSpace(s[|s| - 1])
    ensures Blank(s) <==> Blank(s[..|s| - 1])
    ensures s[..|s| - 1] == "" ==> Blank(s)
  {
    var t := s[..|s| - 1];
    assert forall i :: 0 <= i < |t| ==> s[i] == t[i];
  }

  lemma {:induction false} StripRightTail(s: string)
    requires !Blank(s)
    ensures StripRight(s) != "" && StripRight(s)[1..] == StripRight(s[1..])
  {
    StripRightStep(s);
    hide StripRight, Blank, IsSpace;
    assert s != "";
    if |s| > 1 {
      StripRightStep(s[1..]);
    } else {
      NothingStripped();
    }
    if IsSpace(s[|s| - 1]) {
      var t := s[..|s| - 1];
      BlankInit(s);
      StripRightTail(t);
      assert t[1..] == s[1..][..|s| - 2];
    }
  }

  /** Decide whether a stanza stands for a package that is there. */
  method ClassifyPackage(fields: seq<Field>, stanzaIndex: nat)
    returns (package: Option<IdentifiedPackage>, diagnostic: Option<Diagnostic>)
    ensures match Classify(fields, stanzaIndex + 1)
            case Listed(p) => package == Some(p) && diagnostic == None
            case Reported(d) => package == None && diagnostic == Some(d)
            case Dropped => package == None && diagnostic == None
  {
    hide First, WordsFrom, SameName, Strip;
    var name := Get(fields, "Package");
    var version := Get(fields, "Version");
    var missing := [];
    if name.None? {
      missing := missing + ["Package"];
    }
    if version.None? {
      missing := missing + ["Version"];
    }
    assert missing == (if name.None? then ["Package"] else []) + (if version.None? then ["Version"] else []);
    if missing != [] {
      return None, Some(MissingFields(stanzaIndex + 1, missing));
    }
    var status := Get(fields, "Status");
    if status.None? {
      return None, Some(MissingFields(stanzaIndex + 1, ["Status"]));
    }
    StripKeepsWords(status.value);
    var parts := Words(Strip(status.value));
    if |parts| < 3 {
      return None, Some(MalformedStatus(stanzaIndex + 1, status.value));
    }
    var action, state := parts[0], parts[2];
    if action == "deinstall" || action == "purge" {
      return None, None;
    }
    var pkgStatus;
    if action == "install" || action == "hold" {
      if state == "installed" {
        pkgStatus := "installed";
      } else if state == "config-files" {
        pkgStatus := "config-files";
      } else {
        return None, Some(UnknownState(stanzaIndex + 1, name.value, state));
      }
    } else {
      return None, Some(UnknownAction(stanzaIndex + 1, name.value, action));
    }
    var architecture := Get(fields, "Architecture");
    package := Some(IdentifiedPackage(name.value, version.value,
                                      if architecture.Some? then architecture.value else "", pkgStatus));
    diagnostic := None;
  }

  lemma StepPackages(stanzas: seq<seq<Field>>, i: nat)
    requires i < |stanzas|
    ensures PackagesOf(stanzas[i..], i + 1)
            == (match Classify(stanzas[i], i + 1) case Listed(p) => [p] case _ => [])
               + PackagesOf(stanzas[i + 1..], i + 2)
    ensures DiagnosticsOf(stanzas[i..], i + 1)
            == (match Classify(stanzas[i], i + 1) case Reported(d) => [d] case _ => [])
               + DiagnosticsOf(stanzas[i + 1..], i + 2)
  {
    hide Classify;
    assert stanzas[i..][0] == stanzas[i] && stanzas[i..][1..] == stanzas[i + 1..];
  }

  lemma StepListed(stanzas: seq<seq<Field>>, i: nat, packages: seq<IdentifiedPackage>, diagnostics: seq<Diagnostic>,
                   listed: seq<IdentifiedPackage>, reported: seq<Diagnostic>)
    requires i < |stanzas|
    requires listed == match Classify(stanzas[i], i + 1) case Listed(p) => [p] case _ => []
    requires reported == match Classify(stanzas[i], i + 1) case Reported(d) => [d] case _ => []
    ensures packages + listed + PackagesOf(stanzas[i + 1..], i + 2) == packages + PackagesOf(stanzas[i..], i + 1)
    ensures diagnostics + reported + DiagnosticsOf(stanzas[i + 1..], i + 2)
            == diagnostics + DiagnosticsOf(stanzas[i..], i + 1)
  {
    hide *;
    StepPackages(stanzas, i);
    Moved(packages, listed, PackagesOf(stanzas[i + 1..], i + 2));
    Moved(diagnostics, reported, DiagnosticsOf(stanzas[i + 1..], i + 2));
  }

  lemma StepBlocks(blocks: seq<seq<string>>, i: nat)
    requires i < |blocks|
    ensures ParseBlocks(blocks[i..]) == [AddLines([], blocks[i])] + ParseBlocks(blocks[i + 1..])
  {
    assert blocks[i..][0] == blocks[i] && blocks[i..][1..] == blocks[i + 1..];
  }

  lemma ParsedBlocks(content: string)
    ensures ParseStanzas(content) == ParseBlocks(Blocks(content))
  {
  }

  method ParseDpkgStatus(content: string)
    returns (packages: seq<IdentifiedPackage>, diagnostics: seq<Diagnostic>, stanzas: seq<seq<Field>>)
    ensures stanzas == ParseStanzas(content)
    ensures packages == PackagesOf(ParseStanzas(content), 1)
    ensures diagnostics == DiagnosticsOf(ParseStanzas(content), 1)
  {
    hide *;
    var texts := SplitStanzas(content);
    packages, diagnostics, stanzas := [], [], [];
    ghost var blocks, all := Blocks(content), ParseStanzas(content);
    BlockTexts(content);
    ParsedBlocks(content);
    assert all[0..] == all && blocks[0..] == blocks;
    for i := 0 to |texts|
      invariant stanzas + ParseBlocks(blocks[i..]) == all && |stanzas| == i
      invariant packages + PackagesOf(all[i..], i + 1) == PackagesOf(all, 1)
      invariant diagnostics + DiagnosticsOf(all[i..], i + 1) == DiagnosticsOf(all, 1)
    {
      StepBlocks(blocks, i);
      var fields := ParseStanzaFieldsOrdered(texts[i]);
      Moved(stanzas, [fields], ParseBlocks(blocks[i + 1..]));
      stanzas := stanzas + [fields];
      assert all[i] == fields;
      var package, diagnostic := ClassifyPackage(fields, i);
      var listed := if package.Some? then [package.value] else [];
      var reported := if diagnostic.Some? then [diagnostic.value] else [];
      StepListed(all, i, packages, diagnostics, listed, reported);
      packages := packages + listed;
      diagnostics := diagnostics + reported;
    }
    NothingLeft(blocks, all);
  }

  lemma Moved<T>(done: seq<T>, step: seq<T>, rest: seq<T>)
    ensures (done + step) + rest == done + (step + rest)
  {
  }

  lemma NothingLeft(blocks: seq<seq<string>>, stanzas: seq<seq<Field>>)
    ensures ParseBlocks(blocks[|blocks|..]) == []
    ensures PackagesOf(stanzas[|stanzas|..], |stanzas| + 1) == []
    ensures DiagnosticsOf(stanzas[|stanzas|..], |stanzas| + 1) == []
  {
  }

  // ----- writing -----

  /** A continuation line; an empty one is written as a lone dot. */
  function Continuation(part: string): string {
    if part == "" || part == "." then " ." else " " + part
  }

  function ValueLines(value: string): (ls: seq<string>)
    ensures |ls| == |Split(value)|
  {
    var parts := Split(value);
    seq(|parts|, i requires 0 <= i < |parts| => if i == 0 then parts[0] else Continuation(parts[i]))
  }

  function FieldLines(f: Field): (ls: seq<string>)
    ensures ls != []
  {
    var ls := ValueLines(f.value);
    [f.name + ": " + ls[0]] + ls[1..]
  }

  function StanzaLines(fields: seq<Field>): seq<string> {
    if fields == [] then [] else StanzaLines(fields[..|fields| - 1]) + FieldLines(fields[|fields| - 1])
  }

  function AllStanzaLines(stanzas: seq<seq<Field>>): (bs: seq<seq<string>>)
    ensures |bs| == |stanzas|
  {
    if stanzas == [] then [] else [StanzaLines(stanzas[0])] + AllStanzaLines(stanzas[1..])
  }

  /** The text written for stanzas: their lines, each stanza followed by an empty line. */
  function Format(stanzas: seq<seq<Field>>): string {
    JoinLines(DocLines(AllStanzaLines(stanzas)))
  }

  method FormatFieldValue(value: string) returns (text: string)
    ensures text == JoinLines(ValueLines(value))
  {
    if '\n' !in value {
      SplitOneLine(value);
      return value;
    }
    var parts := Split(value);
    var resultParts := [parts[0]];
    for i := 1 to |parts|
      invariant resultParts == ValueLines(value)[..i]
    {
      if parts[i] == "" || parts[i] == "." {
        resultParts := resultParts + [" ."];
      } else {
        resultParts := resultParts + [" " + parts[i]];
      }
    }
    assert ValueLines(value)[..|parts|] == ValueLines(value);
    text := JoinLines(resultParts);
  }

  method FormatStanza(fields: seq<Field>) returns (text: string)
    ensures text == JoinLines(StanzaLines(fields))
  {
    var lines: seq<string> := [];
    hide FieldLines;
    for i := 0 to |fields|
      invariant (lines == []) == (i == 0) == (StanzaLines(fields[..i]) == [])
      invariant JoinLines(lines) == JoinLines(StanzaLines(fields[..i]))
    {
      var value := FormatFieldValue(fields[i].value);
      var line := fields[i].name + ": " + value;
      FieldText(fields[i]);
      assert fields[..i + 1][..i] == fields[..i];
      if i > 0 {
        JoinAppend(lines, [line]);
        JoinAppend(StanzaLines(fields[..i]), FieldLines(fields[i]));
      } else {
        assert lines + [line] == [line] && StanzaLines(fields[..1]) == FieldLines(fields[0]);
      }
      lines := lines + [line];
    }
    assert fields[..|fields|] == fields;
    text := JoinLines(lines);
  }

  lemma FieldText(f: Field)
    ensures JoinLines(FieldLines(f)) == f.name + ": " + JoinLines(ValueLines(f.value))
  {
    JoinPrefixed(f.name + ": ", ValueLines(f.value));
  }

  /** Stanzas with an empty line between each two and a newline at the end, or no text at all. */
  function Spaced(stanzas: seq<seq<Field>>): string {
    if stanzas == [] then ""
    else JoinLines(StanzaLines(stanzas[0])) + "\n" + (if |stanzas| > 1 then "\n" else "") + Spaced(stanzas[1..])
  }

  lemma JoinDocument(block: seq<string>, rest: seq<string>)
    requires block != []
    ensures JoinLines(block + [""] + rest)
            == JoinLines(block) + "\n" + (if rest == [] then "" else "\n" + JoinLines(rest))
  {
    JoinAppend(block, [""]);
    var b := JoinLines(block);
    assert JoinLines([""]) == "";
    hide JoinLines;
    if rest == [] {
      assert block + [""] + rest == block + [""];
      assert b + "\n" + "" == b + "\n";
    } else {
      JoinAppend(block + [""], rest);
      assert (b + "\n" + "") + "\n" + JoinLines(rest) == b + "\n" + ("\n" + JoinLines(rest));
    }
  }

  lemma DocumentHead(stanzas: seq<seq<Field>>)
    requires stanzas != []
    ensures var first := StanzaLines(stanzas[0]);
            DocLines(AllStanzaLines(stanzas))
            == (if first == [] then [""] else first) + [""] + DocLines(AllStanzaLines(stanzas[1..]))
    ensures DocLines(AllStanzaLines(stanzas)) != []
  {
    var blocks := AllStanzaLines(stanzas);
    assert blocks == [StanzaLines(stanzas[0])] + AllStanzaLines(stanzas[1..]);
    hide AllStanzaLines, StanzaLines;
    assert blocks[1..] == AllStanzaLines(stanzas[1..]);
  }

  lemma SpacedHead(stanzas: seq<seq<Field>>, first: string, rest: string)
    requires stanzas != [] && first == JoinLines(StanzaLines(stanzas[0]))
    requires rest == Spaced(stanzas[1..])
    ensures Spaced(stanzas) == first + "\n" + (if |stanzas| == 1 then "" else "\n" + rest)
  {
    hide StanzaLines, JoinLines;
    if |stanzas| == 1 {
      assert first + "\n" + "" + "" == first + "\n" + "";
    } else {
      assert first + "\n" + "\n" + rest == first + "\n" + ("\n" + rest);
    }
  }

  lemma {:induction false} SpacedIsFormat(stanzas: seq<seq<Field>>)
    ensures Spaced(stanzas) == Format(stanzas)
  {
    if stanzas != [] {
      SpacedIsFormat(stanzas[1..]);
      var first, rest := StanzaLines(stanzas[0]), DocLines(AllStanzaLines(stanzas[1..]));
      var block := if first == [] then [""] else first;
      DocumentHead(stanzas);
      JoinDocument(block, rest);
      if |stanzas| > 1 {
        DocumentHead(stanzas[1..]);
      }
      SpacedHead(stanzas, JoinLines(first), JoinLines(rest));
    }
  }

  /** The pieces with the separator between each two. */
  function JoinBy(separator: string, pieces: seq<string>): string {
    if pieces == [] then ""
    else if |pieces| == 1 then pieces[0]
    else pieces[0] + separator + JoinBy(separator, pieces[1..])
  }

  method FormatDpkgStatus(stanzas: seq<seq<Field>>) returns (text: string)
    ensures text == Format(stanzas)
  {
    SpacedIsFormat(stanzas);
    hide StanzaLines, Format;
    if stanzas == [] {
      return "";
    }
    var formatted: seq<string> := [];
    for i := 0 to |stanzas|
      invariant |formatted| == i
      invariant forall k :: 0 <= k < i ==> formatted[k] == JoinLines(StanzaLines(stanzas[k]))
    {
      var piece := FormatStanza(stanzas[i]);
      formatted := formatted + [piece];
    }
    JoinedIsSpaced(stanzas, formatted);
    text := JoinBy("\n\n", formatted) + "\n";
  }

  lemma {:induction false} JoinedIsSpaced(stanzas: seq<seq<Field>>, formatted: seq<string>)
    requires stanzas != [] && |formatted| == |stanzas|
    requires forall k :: 0 <= k < |stanzas| ==> formatted[k] == JoinLines(StanzaLines(stanzas[k]))
    ensures JoinBy("\n\n", formatted) + "\n" == Spaced(stanzas)
  {
    hide StanzaLines, JoinLines;
    if |stanzas| > 1 {
      JoinedIsSpaced(stanzas[1..], formatted[1..]);
      var rest := JoinBy("\n\n", formatted[1..]);
      assert formatted[0] + "\n" + "\n" + (rest + "\n") == (formatted[0] + "\n\n" + rest) + "\n";
    } else {
      assert Spaced(stanzas) == formatted[0] + "\n" + "" + "";
    }
  }

  // ----- the round trip -----

  lemma {:induction false} LinesInTwo(fields: seq<Field>, a: seq<string>, b: seq<string>)
    ensures AddLines(fields, a + b) == AddLines(AddLines(fields, a), b)
  {
    if b == [] {
      assert a + b == a;
    } else {
      var n := |b| - 1;
      hide AddLine;
      assert (a + b)[..|a + b| - 1] == a + b[..n];
      LinesInTwo(fields, a, b[..n]);
    }
  }

  lemma FirstLineStartsField(fields: seq<Field>, name: string, value: string)
    requires ':' !in name && !IsContinuation(name)
    ensures AddLine(fields, name + ": " + value) == fields + [Field(name, value)]
  {
    var line := name + ": " + value;
    FirstLineSplits(name, value);
    assert (" " + value)[1..] == value;
  }

  lemma FieldLineAt(f: Field, i: nat)
    requires i < |FieldLines(f)|
    ensures |FieldLines(f)| == |Split(f.value)|
    ensures FieldLines(f)[i] == if i == 0 then f.name + ": " + Split(f.value)[0] else Continuation(Split(f.value)[i])
  {
    hide Split;
  }

  lemma ContinuationIsRead(fields: seq<Field>, f: Field, part: string)
    requires part != ""
    ensures AddLine(fields + [f], Continuation(part)) == fields + [Field(f.name, f.value + "\n" + part)]
  {
    var line := Continuation(part);
    assert line == " " + part && line[1..] == part;
    assert (fields + [f])[..|fields + [f]| - 1] == fields;
  }

  /** Reading the first k lines of a written field gives the first k lines of its value. */
  lemma {:induction false} FieldPrefix(fields: seq<Field>, f: Field, k: nat)
    requires Legal(f) && 1 <= k <= |FieldLines(f)|
    ensures |FieldLines(f)| == |Split(f.value)|
    ensures AddLines(fields, FieldLines(f)[..k]) == fields + [Field(f.name, JoinLines(Split(f.value)[..k]))]
  {
    hide FieldLines, Split, AddLine, Continuation;
    var ls, parts := FieldLines(f), Split(f.value);
    FieldLineAt(f, k - 1);
    assert ls[..k][..k - 1] == ls[..k - 1];
    assert parts[..k][..k - 1] == parts[..k - 1];
    if k == 1 {
      FirstLineStartsField(fields, f.name, parts[0]);
      assert AddLines(fields, []) == fields;
    } else {
      var part := parts[k - 1];
      assert !Blank(part);
      hide Legal;
      FieldPrefix(fields, f, k - 1);
      ContinuationIsRead(fields, Field(f.name, JoinLines(parts[..k - 1])), part);
    }
  }

  lemma FieldIsReadBack(fields: seq<Field>, f: Field)
    requires Legal(f)
    ensures AddLines(fields, FieldLines(f)) == fields + [f]
  {
    var k := |FieldLines(f)|;
    FieldPrefix(fields, f, k);
    SplitIsLines(f.value);
    assert FieldLines(f)[..k] == FieldLines(f) && Split(f.value)[..k] == Split(f.value);
  }

  lemma {:induction false} StanzaIsReadBack(fields: seq<Field>)
    requires AllLegal(fields)
    ensures AddLines([], StanzaLines(fields)) == fields
  {
    hide AddLine, FieldLines, Legal;
    if fields == [] {
      assert StanzaLines(fields) == [];
    } else {
      var n := |fields| - 1;
      var init, f := fields[..n], fields[n];
      assert f in fields && forall x :: x in init ==> x in fields;
      StanzaIsReadBack(init);
      LastFieldIsReadBack(init, f);
      assert fields == init + [f];
    }
  }

  lemma LastFieldIsReadBack(init: seq<Field>, f: Field)
    requires Legal(f) && AddLines([], StanzaLines(init)) == init
    ensures AddLines([], StanzaLines(init + [f])) == init + [f]
  {
    assert (init + [f])[..|init|] == init;
    assert StanzaLines(init + [f]) == StanzaLines(init) + FieldLines(f);
    hide *;
    LinesInTwo([], StanzaLines(init), FieldLines(f));
    FieldIsReadBack(init, f);
  }

  lemma {:induction false} StanzaLinesAreNotBlank(fields: seq<Field>)
    requires AllLegal(fields)
    ensures NoBlank(StanzaLines(fields))
  {
    if fields != [] {
      var n := |fields| - 1;
      var init, f := fields[..n], fields[n];
      assert f in fields && forall x :: x in init ==> x in fields;
      assert StanzaLines(fields) == StanzaLines(init) + FieldLines(f);
      hide StanzaLines, FieldLines, Legal;
      StanzaLinesAreNotBlank(init);
      FieldLinesAreNotBlank(f);
      hide Blank, OneLine;
    }
  }

  lemma FieldLinesAreNotBlank(f: Field)
    requires Legal(f)
    ensures NoBlank(FieldLines(f))
  {
    SplitIsLines(f.value);
    hide FieldLines, Split;
    var ls, parts := FieldLines(f), Split(f.value);
    forall l | l in ls
      ensures !Blank(l) && OneLine(l)
    {
      var i :| 0 <= i < |ls| && ls[i] == l;
      FieldLineAt(f, i);
      assert parts[i] in parts;
      if i == 0 {
        assert l[|f.name|] == ':';
      } else {
        ContinuationIsNotBlank(parts[i]);
      }
    }
  }

  lemma ContinuationIsNotBlank(part: string)
    requires !Blank(part) && OneLine(part)
    ensures !Blank(Continuation(part)) && OneLine(Continuation(part))
  {
    var j :| 0 <= j < |part| && !IsSpace(part[j]);
    assert Continuation(part) == " " + part;
    assert Continuation(part)[j + 1] == part[j];
  }

  predicate AllStanzasLegal(stanzas: seq<seq<Field>>) {
    forall s :: s in stanzas ==> AllLegal(s)
  }

  lemma {:induction false} BlocksAreReadBack(stanzas: seq<seq<Field>>)
    requires AllStanzasLegal(stanzas)
    ensures ParseBlocks(NonEmpty(AllStanzaLines(stanzas))) == NonEmpty(stanzas)
    ensures forall b :: b in AllStanzaLines(stanzas) ==> NoBlank(b)
  {
    if stanzas != [] {
      assert stanzas[0] in stanzas && forall s :: s in stanzas[1..] ==> s in stanzas;
      BlocksAreReadBack(stanzas[1..]);
      StanzaIsReadBack(stanzas[0]);
      StanzaLinesAreNotBlank(stanzas[0]);
      var first, rest := StanzaLines(stanzas[0]), AllStanzaLines(stanzas[1..]);
      assert first == [] <==> stanzas[0] == [];
      var all := AllStanzaLines(stanzas);
      assert all == [first] + rest;
      assert all[0] == first && all[1..] == rest;
      hide StanzaLines, AddLines, NoBlank, AllLegal, AllStanzaLines;
      var kept := NonEmpty(rest);
      if first != [] {
        assert NonEmpty(all) == [first] + kept;
        assert NonEmpty(all)[1..] == kept;
        assert ParseBlocks(NonEmpty(all)) == [AddLines([], first)] + ParseBlocks(kept);
      } else {
        assert NonEmpty(all) == kept;
      }
    }
  }

  lemma FormatLines(stanzas: seq<seq<Field>>)
    requires AllStanzasLegal(stanzas)
    ensures Blocks(Format(stanzas)) == NonEmpty(AllStanzaLines(stanzas))
  {
    var blocks := AllStanzaLines(stanzas);
    BlocksAreReadBack(stanzas);
    DocLinesSplit(blocks);
    if stanzas == [] {
      assert Split("") == [""];
      BlankTextHasNoBlocks([""]);
    } else {
      DocLinesAreOneLine(blocks);
      SplitJoined(DocLines(blocks));
    }
  }

  /** Legal stanzas survive writing and reading, except those without fields. */
  lemma ReadBack(stanzas: seq<seq<Field>>)
    requires AllStanzasLegal(stanzas)
    ensures ParseStanzas(Format(stanzas)) == NonEmpty(stanzas)
  {
    FormatLines(stanzas);
    BlocksAreReadBack(stanzas);
  }

  lemma {:induction false} ParsedBlocksAreLegal(blocks: seq<seq<string>>)
    requires forall b :: b in blocks ==> NoBlank(b)
    ensures AllStanzasLegal(ParseBlocks(blocks))
  {
    if blocks != [] {
      assert blocks[0] in blocks && forall b :: b in blocks[1..] ==> b in blocks;
      ParsedIsLegal([], blocks[0]);
      ParsedBlocksAreLegal(blocks[1..]);
    }
  }

  lemma ParsedStanzasAreLegal(content: string)
    ensures AllStanzasLegal(ParseStanzas(content))
  {
    BlocksOfText(content);
    ParsedBlocksAreLegal(Blocks(content));
  }

  lemma {:induction false} NonEmptyIsSame(stanzas: seq<seq<Field>>)
    ensures |NonEmpty(stanzas)| <= |stanzas|
    ensures NonEmpty(stanzas) == stanzas <==> [] !in stanzas
    ensures [] !in NonEmpty(stanzas)
    ensures forall s :: s in NonEmpty(stanzas) ==> s in stanzas
  {
    if stanzas != [] {
      NonEmptyIsSame(stanzas[1..]);
      assert stanzas == [stanzas[0]] + stanzas[1..];
    }
  }

  /** Reading is a left inverse of writing exactly on stanzas with fields, all of them legal. */
  lemma RoundTripsExactly(stanzas: seq<seq<Field>>)
    ensures ParseStanzas(Format(stanzas)) == stanzas <==> AllStanzasLegal(stanzas) && [] !in stanzas
  {
    NonEmptyIsSame(stanzas);
    if AllStanzasLegal(stanzas) {
      ReadBack(stanzas);
    } else {
      ParsedStanzasAreLegal(Format(stanzas));
    }
  }

  lemma {:induction false} EmptyStanzasListNothing(stanzas: seq<seq<Field>>, m: nat, n: nat)
    ensures PackagesOf(NonEmpty(stanzas), m) == PackagesOf(stanzas, n)
  {
    if stanzas != [] {
      assert NonEmpty(stanzas) == (if stanzas[0] == [] then [] else [stanzas[0]]) + NonEmpty(stanzas[1..]);
      NumberIsOnlyReported(stanzas[0], m, n);
      if stanzas[0] == [] {
        EmptyStanzasListNothing(stanzas[1..], m, n + 1);
        EmptyIsReported(n);
        assert NonEmpty(stanzas) == NonEmpty(stanzas[1..]);
        hide Classify;
      } else {
        EmptyStanzasListNothing(stanzas[1..], m + 1, n + 1);
        assert NonEmpty(stanzas)[1..] == NonEmpty(stanzas[1..]);
        hide Classify;
      }
    }
  }

  lemma EmptyIsReported(n: nat)
    ensures Classify([], n).Reported?
  {
    var none: seq<Field> := [];
    assert First(none, "Package") == None;
  }

  lemma NumberIsOnlyReported(fields: seq<Field>, m: nat, n: nat)
    ensures Classify(fields, m).Listed? ==> Classify(fields, n) == Classify(fields, m)
    ensures Classify(fields, m).Listed? <==> Classify(fields, n).Listed?
  {
    hide First, WordsFrom;
  }

  /** Every text: writing what was read and reading again changes neither the packages nor,
      but for stanzas without fields, the stanzas; a second time changes nothing at all. */
  lemma ReprintKeepsEverything(content: string)
    ensures var stanzas := ParseStanzas(content);
            var again := ParseStanzas(Format(stanzas));
            && again == NonEmpty(stanzas)
            && PackagesOf(again, 1) == PackagesOf(stanzas, 1)
            && ParseStanzas(Format(again)) == again
  {
    var stanzas := ParseStanzas(content);
    ParsedStanzasAreLegal(content);
    ReadBack(stanzas);
    EmptyStanzasListNothing(stanzas, 1, 1);
    NonEmptyIsSame(stanzas);
    RoundTripsExactly(NonEmpty(stanzas));
  }

  /** The lone dot the printer writes for an empty continuation line is not read back as empty. */
  lemma EmptyContinuationBecomesDot(name: string, first: string)
    requires Legal(Field(name, first)) && OneLine(first)
    ensures ParseStanzas(Format([[Field(name, first + "\n")]])) == [[Field(name, first + "\n.")]]
  {
    hide Split, OneLine, FieldLines, ParseStanzas, Blank, IsContinuation, AllStanzaLines;
    var empty, dot := Field(name, first + "\n"), Field(name, first + "\n.");
    DotIsLegal(name, first, dot);
    SameLines(first, empty, dot);
    assert Format([[empty]]) == Format([[dot]]) by {
      OneStanzaLines(empty);
      OneStanzaLines(dot);
    }
    hide Format, Legal;
    RoundTripsExactly([[dot]]);
  }

  lemma OneStanzaLines(f: Field)
    ensures AllStanzaLines([[f]]) == [FieldLines(f)]
  {
    hide FieldLines;
    var one := [f];
    assert one[..0] == [] && StanzaLines(one) == StanzaLines(one[..0]) + FieldLines(f);
    assert [] + FieldLines(f) == FieldLines(f);
    var all := [one];
    assert AllStanzaLines(all) == [StanzaLines(one)] + AllStanzaLines(all[1..]);
  }

  lemma DotIsLegal(name: string, first: string, dot: Field)
    requires Legal(Field(name, first)) && OneLine(first) && dot == Field(name, first + "\n.")
    ensures Legal(dot)
  {
    hide Split, OneLine;
    assert OneLine(".") && !Blank(".") by {
      DotIsALine();
    }
    SplitsInTwo(first, ".");
    assert first + "\n" + "." == first + "\n.";
  }

  lemma DotIsALine()
    ensures OneLine(".") && !Blank(".") && OneLine("")
  {
    assert !IsSpace("."[0]);
  }

  lemma SameLines(first: string, empty: Field, dot: Field)
    requires OneLine(first) && empty.name == dot.name && empty.value == first + "\n" && dot.value == first + "\n."
    ensures FieldLines(empty) == FieldLines(dot)
  {
    DotIsALine();
    SplitsInTwo(first, "");
    SplitsInTwo(first, ".");
    assert first + "\n" + "" == first + "\n" && first + "\n" + "." == first + "\n.";
    hide Split, OneLine, Blank;
    assert ValueLines(empty.value) == ValueLines(dot.value);
  }

  lemma SplitsInTwo(a: string, b: string)
    requires OneLine(a) && OneLine(b)
    ensures Split(a + "\n" + b) == [a, b]
  {
    SplitOneLine(a);
    SplitOneLine(b);
    SplitBetween(a, b);
  }
}
