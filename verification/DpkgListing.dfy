/** Which packages a status file lists and what it reports, told from the names and values of the fields. */
module DpkgListing {
  import opened Results
  import opened Letters
  import opened Lines
  import opened LineLaws
  import opened Stanzas
  import opened Dpkg

  // ----- fields by their names -----

  /** The first field of this name, up to the case of letters, has the value. */
  ghost predicate Says(fields: seq<Field>, name: string, value: string) {
    exists i :: 0 <= i < |fields| && SameLetters(fields[i].name, name) && fields[i].value == value
                && forall j :: 0 <= j < i ==> !SameLetters(fields[j].name, name)
  }

  predicate Silent(fields: seq<Field>, name: string) {
    forall i :: 0 <= i < |fields| ==> !SameLetters(fields[i].name, name)
  }

  ghost predicate Speaks(fields: seq<Field>, name: string) {
    exists value: string :: Says(fields, name, value)
  }

  lemma SameNameIs(a: string, b: string)
    ensures SameName(a, b) <==> SameLetters(a, b)
  {
    forall c: char, d: char ensures SameLetter(c, d) <==> ToLower(c) == ToLower(d) { LowerIs(c, d); }
    hide SameLetter, ToLower;
  }

  lemma {:induction false} FirstIs(fields: seq<Field>, name: string, value: string)
    ensures First(fields, name) == Some(value) <==> Says(fields, name, value)
    ensures First(fields, name) == None <==> Silent(fields, name)
  {
    hide SameName, SameLetters;
    if fields != [] {
      SameNameIs(fields[0].name, name);
      FirstIs(fields[1..], name, value);
      if SameLetters(fields[0].name, name) {
        if Says(fields, name, value) {
          var i :| 0 <= i < |fields| && SameLetters(fields[i].name, name) && fields[i].value == value
                   && forall j :: 0 <= j < i ==> !SameLetters(fields[j].name, name);
          assert i == 0;
        }
      } else {
        SaysLater(fields, name, value);
      }
    }
  }

  lemma SaysLater(fields: seq<Field>, name: string, value: string)
    requires fields != [] && !SameLetters(fields[0].name, name)
    ensures Says(fields, name, value) <==> Says(fields[1..], name, value)
    ensures Silent(fields, name) <==> Silent(fields[1..], name)
  {
    hide SameLetters;
    var rest := fields[1..];
    assert forall i :: 1 <= i < |fields| ==> fields[i] == rest[i - 1];
    if Says(fields, name, value) {
      var i :| 0 <= i < |fields| && SameLetters(fields[i].name, name) && fields[i].value == value
               && forall j :: 0 <= j < i ==> !SameLetters(fields[j].name, name);
      assert rest[i - 1] == fields[i];
      assert forall j :: 0 <= j < i - 1 ==> rest[j] == fields[j + 1];
    }
    if Says(rest, name, value) {
      var i :| 0 <= i < |rest| && SameLetters(rest[i].name, name) && rest[i].value == value
               && forall j :: 0 <= j < i ==> !SameLetters(rest[j].name, name);
      assert fields[i + 1] == rest[i];
      assert forall j :: 1 <= j < i + 1 ==> fields[j] == rest[j - 1];
    }
  }

  // ----- one stanza -----

  /** Package and version are there and the status has these words. */
  ghost predicate Complete(fields: seq<Field>, status: string, words: seq<string>) {
    Speaks(fields, "Package") && Speaks(fields, "Version") && Says(fields, "Status", status) && WordsAre(status, words)
  }

  /** Wanted and there. */
  ghost predicate Lists(fields: seq<Field>, p: IdentifiedPackage) {
    && Says(fields, "Package", p.name) && Says(fields, "Version", p.version)
    && (Says(fields, "Architecture", p.architecture) || (Silent(fields, "Architecture") && p.architecture == ""))
    && exists status: string, words: seq<string> ::
         && Complete(fields, status, words) && |words| >= 3
         && (words[0] == "install" || words[0] == "hold") && words[2] == p.status && (p.status == "installed" || p.status == "config-files")
  }

  ghost predicate Drops(fields: seq<Field>) {
    exists status: string, words: seq<string> ::
      Complete(fields, status, words) && |words| >= 3 && (words[0] == "deinstall" || words[0] == "purge")
  }

  predicate IsUnknown(action: string) {
    action != "install" && action != "hold" && action != "deinstall" && action != "purge"
  }

  /** The names of the missing fields; a status is missed only when nothing else is. */
  ghost predicate Lacks(fields: seq<Field>, names: seq<string>) {
    if Silent(fields, "Package") && Silent(fields, "Version") then names == ["Package", "Version"]
    else if Silent(fields, "Package") then names == ["Package"]
    else if Silent(fields, "Version") then names == ["Version"]
    else names == ["Status"] && Silent(fields, "Status")
  }

  ghost predicate Reports(fields: seq<Field>, number: nat, d: Diagnostic) {
    match d
    case MissingFields(k, names) => k == number && Lacks(fields, names)
    case MalformedStatus(k, status) =>
      k == number && exists words: seq<string> :: Complete(fields, status, words) && |words| < 3
    case UnknownAction(k, name, action) =>
      && k == number && Says(fields, "Package", name) && IsUnknown(action)
      && exists status: string, words: seq<string> ::
           Complete(fields, status, words) && |words| >= 3 && words[0] == action
    case UnknownState(k, name, state) =>
      && k == number && Says(fields, "Package", name) && state != "installed" && state != "config-files"
      && exists status: string, words: seq<string> ::
           Complete(fields, status, words) && |words| >= 3 && (words[0] == "install" || words[0] == "hold") && words[2] == state
  }

  lemma FieldIs(fields: seq<Field>, name: string)
    ensures First(fields, name) == None <==> Silent(fields, name)
    ensures First(fields, name).Some? <==> Speaks(fields, name)
    ensures forall value: string :: Says(fields, name, value) <==> First(fields, name) == Some(value)
  {
    forall value: string
      ensures Says(fields, name, value) <==> First(fields, name) == Some(value)
    {
      FirstIs(fields, name, value);
    }
    FirstIs(fields, name, "");
    hide Says, First, Silent;
    if First(fields, name).Some? {
      assert Says(fields, name, First(fields, name).value);
    }
  }

  lemma CompleteIs(fields: seq<Field>)
    ensures forall status: string, words: seq<string> ::
              Complete(fields, status, words) <==>
              && First(fields, "Package").Some? && First(fields, "Version").Some?
              && First(fields, "Status") == Some(status) && words == Words(status)
  {
    hide First, Says, Speaks, Silent, Words, WordsAre;
    FieldIs(fields, "Package");
    FieldIs(fields, "Version");
    FieldIs(fields, "Status");
    forall status: string, words: seq<string>
      ensures Complete(fields, status, words) <==>
              && First(fields, "Package").Some? && First(fields, "Version").Some?
              && First(fields, "Status") == Some(status) && words == Words(status)
    {
      WordsIs(status, words);
    }
  }

  /** A stanza lists a package exactly if its fields say so. */
  lemma ListedExactly(fields: seq<Field>, number: nat, p: IdentifiedPackage)
    ensures Classify(fields, number) == Listed(p) <==> Lists(fields, p)
  {
    hide First, Says, Speaks, Silent, Words, WordsAre, Complete;
    FieldIs(fields, "Package");
    FieldIs(fields, "Version");
    FieldIs(fields, "Architecture");
    CompleteIs(fields);
    var status := First(fields, "Status");
    if status.Some? && First(fields, "Package").Some? && First(fields, "Version").Some? {
      assert Complete(fields, status.value, Words(status.value));
    }
  }

  /** Nothing is said of a package exactly if it is complete and not wanted. */
  lemma DroppedExactly(fields: seq<Field>, number: nat)
    ensures Classify(fields, number) == Dropped <==> Drops(fields)
  {
    hide First, Says, Speaks, Silent, Words, WordsAre, Complete;
    FieldIs(fields, "Package");
    FieldIs(fields, "Version");
    CompleteIs(fields);
    var status := First(fields, "Status");
    if status.Some? && First(fields, "Package").Some? && First(fields, "Version").Some? {
      assert Complete(fields, status.value, Words(status.value));
    }
  }

  /** What is reported, and of which stanza. */
  lemma ReportedExactly(fields: seq<Field>, number: nat, d: Diagnostic)
    ensures Classify(fields, number) == Reported(d) <==> Reports(fields, number, d)
  {
    hide First, Says, Speaks, Silent, Words, WordsAre, Complete;
    FieldIs(fields, "Package");
    FieldIs(fields, "Version");
    FieldIs(fields, "Status");
    CompleteIs(fields);
    var status := First(fields, "Status");
    if status.Some? && First(fields, "Package").Some? && First(fields, "Version").Some? {
      assert Complete(fields, status.value, Words(status.value));
    }
  }

  // ----- a whole file -----

  function ListedIn(fields: seq<Field>, number: nat): seq<IdentifiedPackage> {
    match Classify(fields, number) case Listed(p) => [p] case _ => []
  }

  function ReportedIn(fields: seq<Field>, number: nat): seq<Diagnostic> {
    match Classify(fields, number) case Reported(d) => [d] case _ => []
  }

  lemma {:induction false} PackagesInTwo(a: seq<seq<Field>>, b: seq<seq<Field>>, number: nat)
    ensures PackagesOf(a + b, number) == PackagesOf(a, number) + PackagesOf(b, number + |a|)
  {
    if a == [] {
      assert a + b == b;
    } else {
      assert (a + b)[0] == a[0] && (a + b)[1..] == a[1..] + b;
      PackagesInTwo(a[1..], b, number + 1);
      var head := ListedIn(a[0], number);
      assert PackagesOf(a, number) == head + PackagesOf(a[1..], number + 1);
      assert PackagesOf(a + b, number) == head + PackagesOf(a[1..] + b, number + 1);
      hide PackagesOf, ListedIn;
      Moved(head, PackagesOf(a[1..], number + 1), PackagesOf(b, number + |a|));
    }
  }

  lemma {:induction false} DiagnosticsInTwo(a: seq<seq<Field>>, b: seq<seq<Field>>, number: nat)
    ensures DiagnosticsOf(a + b, number) == DiagnosticsOf(a, number) + DiagnosticsOf(b, number + |a|)
  {
    if a == [] {
      assert a + b == b;
    } else {
      assert (a + b)[0] == a[0] && (a + b)[1..] == a[1..] + b;
      DiagnosticsInTwo(a[1..], b, number + 1);
      var head := ReportedIn(a[0], number);
      assert DiagnosticsOf(a, number) == head + DiagnosticsOf(a[1..], number + 1);
      assert DiagnosticsOf(a + b, number) == head + DiagnosticsOf(a[1..] + b, number + 1);
      hide DiagnosticsOf, ReportedIn;
      Moved(head, DiagnosticsOf(a[1..], number + 1), DiagnosticsOf(b, number + |a|));
    }
  }

  lemma OneStanza(fields: seq<Field>, number: nat)
    ensures PackagesOf([fields], number) == ListedIn(fields, number)
    ensures DiagnosticsOf([fields], number) == ReportedIn(fields, number)
  {
    hide Classify;
    assert [fields][1..] == [];
  }

  /** A stanza by itself lists the package it says, if any, and is reported for what is wrong with it, if anything. */
  lemma StanzaIsListed(fields: seq<Field>, number: nat)
    ensures forall p :: Lists(fields, p) ==> PackagesOf([fields], number) == [p]
    ensures (forall p :: !Lists(fields, p)) ==> PackagesOf([fields], number) == []
    ensures forall d :: Reports(fields, number, d) ==> DiagnosticsOf([fields], number) == [d]
    ensures (forall d :: !Reports(fields, number, d)) ==> DiagnosticsOf([fields], number) == []
  {
    hide Classify, Lists, Reports, PackagesOf, DiagnosticsOf;
    OneStanza(fields, number);
    forall p ensures Classify(fields, number) == Listed(p) <==> Lists(fields, p) { ListedExactly(fields, number, p); }
    forall d
      ensures Classify(fields, number) == Reported(d) <==> Reports(fields, number, d)
    {
      ReportedExactly(fields, number, d);
    }
  }

  /** The packages and reports of a file are those of its stanzas, in order and numbered from one. */
  lemma FileIsListed(stanzas: seq<seq<Field>>, k: nat)
    requires k < |stanzas|
    ensures PackagesOf(stanzas[..k + 1], 1) == PackagesOf(stanzas[..k], 1) + PackagesOf([stanzas[k]], k + 1)
    ensures DiagnosticsOf(stanzas[..k + 1], 1) == DiagnosticsOf(stanzas[..k], 1) + DiagnosticsOf([stanzas[k]], k + 1)
    ensures PackagesOf([], 1) == [] && DiagnosticsOf([], 1) == []
  {
    assert stanzas[..k + 1] == stanzas[..k] + [stanzas[k]];
    hide PackagesOf, DiagnosticsOf;
    PackagesInTwo(stanzas[..k], [stanzas[k]], 1);
    DiagnosticsInTwo(stanzas[..k], [stanzas[k]], 1);
    NothingListed();
  }

  lemma NothingListed()
    ensures PackagesOf([], 1) == [] && DiagnosticsOf([], 1) == []
  {
  }
}
