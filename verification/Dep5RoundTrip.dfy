/** What survives writing a copyright document and reading it back. */
module Dep5RoundTrip {
  import opened Results
  import opened Lines
  import opened Stanzas
  import opened Dictionaries
  import opened Dep5Document
  import opened Dep5Parser
  import opened Dep5Printer

  // ----- one field -----

  lemma TitleCaseKeeps(key: string)
    requires GoodKey(key)
    ensures Lower(TitleCase(key)) == key
    ensures Stripped(TitleCase(key)) && OneLine(TitleCase(key)) && ':' !in TitleCase(key)
  {
    var t := TitleCase(key);
    forall i | 0 <= i < |key|
      ensures ToLower(t[i]) == key[i] && t[i] != '\n' && t[i] != ':'
    {
      assert Lower(key)[i] == key[i] && key[i] in key;
    }
    assert Lower(t) == key;
  }

  lemma FirstLineIsNoContinuation(name: string, first: string)
    requires Stripped(name)
    ensures !IsContinuation(name + ": " + first)
  {
    var line := name + ": " + first;
    if name != "" {
      assert line[0] == name[0] && !IsSpace(name[0]);
    }
  }

  /** The first printed line of a field starts the field again. */
  lemma FirstLineIsRead(r: Reading, key: string, first: string)
    requires GoodKey(key) && Stripped(first)
    ensures ReadLine(r, TitleCase(key) + ": " + first) == Reading(Saved(r), Some(key), [first])
  {
    hide *;
    var name := TitleCase(key);
    TitleCaseKeeps(key);
    FirstLineIsNoContinuation(name, first);
    FirstLineSplits(name, first);
    StripIsStripped(name);
    StripIsStripped(first);
    StripAfterBlank(first);
    ReadFieldLine(r, name + ": " + first);
  }

  lemma ReadFieldLine(r: Reading, line: string)
    requires !IsContinuation(line) && ':' in line
    ensures var c := ColonIndex(line);
            ReadLine(r, line) == Reading(Saved(r), Some(Lower(Strip(line[..c]))), [Strip(line[c + 1..])])
  {
    hide IsContinuation, ColonIndex, Saved, Strip, Lower;
  }

  lemma ContinuedIsRead(r: Reading, line: string)
    requires r.current.Some?
    ensures ReadLine(r, Continued(line)) == r.(lines := r.lines + [UndotLine(line)])
  {
    assert Continued(line)[1..] == if line == "" then "." else line;
  }

  lemma PrintedLineAt(name: string, value: string, i: nat)
    requires i < |Split(value)|
    ensures PrintedLines(name, value)[i] == if i == 0 then name + ": " + Split(value)[0] else Continued(Split(value)[i])
  {
    hide Split;
  }

  lemma UndotPrefix(parts: seq<string>, k: nat)
    requires 1 <= k <= |parts|
    ensures UndotLines(parts)[..k]
            == if k == 1 then [parts[0]] else UndotLines(parts)[..k - 1] + [UndotLine(parts[k - 1])]
  {
  }

  lemma {:induction false} FieldPrefixIsRead(r: Reading, f: Field, k: nat)
    requires GoodField(f) && 1 <= k <= |Split(f.value)|
    ensures ReadLines(r, PrintedLines(TitleCase(f.name), f.value)[..k])
            == Reading(Saved(r), Some(f.name), UndotLines(Split(f.value))[..k])
  {
    hide PrintedLines, Split, ReadLine, TitleCase, GoodKey, UndotLines, UndotLine, Continued, Saved;
    var name, parts := TitleCase(f.name), Split(f.value);
    var ls := PrintedLines(name, f.value);
    PrintedLineAt(name, f.value, k - 1);
    UndotPrefix(parts, k);
    assert ls[..k][..k - 1] == ls[..k - 1] && ls[..k][k - 1] == ls[k - 1];
    if k == 1 {
      FirstLineIsRead(r, f.name, parts[0]);
      assert ReadLines(r, []) == r;
    } else {
      hide GoodField;
      FieldPrefixIsRead(r, f, k - 1);
      ContinuedIsRead(Reading(Saved(r), Some(f.name), UndotLines(parts)[..k - 1]), parts[k - 1]);
    }
  }

  lemma FieldIsRead(r: Reading, f: Field)
    requires GoodField(f)
    ensures ReadLines(r, PrintedLines(TitleCase(f.name), f.value))
            == Reading(Saved(r), Some(f.name), UndotLines(Split(f.value)))
  {
    hide *;
    var ls, parts := PrintedLines(TitleCase(f.name), f.value), Split(f.value);
    FieldPrefixIsRead(r, f, |parts|);
    assert ls[..|parts|] == ls && UndotLines(parts)[..|parts|] == UndotLines(parts);
  }

  // ----- one paragraph -----

  lemma {:induction false} ReadInTwo(r: Reading, a: seq<string>, b: seq<string>)
    ensures ReadLines(r, a + b) == ReadLines(ReadLines(r, a), b)
  {
    if b == [] {
      assert a + b == a;
    } else {
      hide ReadLine;
      var n := |b| - 1;
      assert (a + b)[..|a + b| - 1] == a + b[..n];
      ReadInTwo(r, a, b[..n]);
    }
  }

  /** A written paragraph is read back, with its lone dots as empty lines. */
  lemma {:induction false} ParagraphIsRead(fields: seq<Field>)
    requires GoodFields(fields)
    ensures FieldsOf(ParagraphLines(fields)) == UndotFields(fields)
  {
    hide ReadLine, GoodField, UndotField, PrintedLines, TitleCase, Put;
    if fields != [] {
      var n := |fields| - 1;
      var init, f := fields[..n], fields[n];
      assert fields == init + [f] && f in fields && forall x :: x in init ==> x in fields;
      ParagraphIsRead(init);
      hide ReadLines;
      ReadInTwo(START, ParagraphLines(init), PrintedLines(TitleCase(f.name), f.value));
      FieldIsRead(ReadLines(START, ParagraphLines(init)), f);
      PutUndotted(init, f);
    }
  }

  lemma PutUndotted(init: seq<Field>, f: Field)
    requires Distinct(init + [f])
    ensures Put(UndotFields(init), f.name, UndotValue(f.value)) == UndotFields(init + [f])
  {
    hide UndotValue, Put;
    var all, undotted := init + [f], UndotFields(init);
    forall x | x in undotted
      ensures x.name !in [f.name]
    {
      var i :| 0 <= i < |undotted| && undotted[i] == x;
      assert all[i].name != all[|init|].name;
    }
    PutNew(undotted, f.name, UndotValue(f.value));
    assert UndotFields(all) == undotted + [UndotField(f)];
  }

  lemma {:induction false} ParagraphHasNoBlank(fields: seq<Field>)
    requires GoodFields(fields)
    ensures NoBlank(ParagraphLines(fields))
  {
    hide GoodField, PrintedLines, TitleCase, Blank, OneLine;
    if fields != [] {
      var n := |fields| - 1;
      var init, f := fields[..n], fields[n];
      assert f in fields && forall x :: x in init ==> x in fields;
      ParagraphHasNoBlank(init);
      FieldHasNoBlank(f);
    }
  }

  lemma FieldHasNoBlank(f: Field)
    requires GoodField(f)
    ensures NoBlank(PrintedLines(TitleCase(f.name), f.value))
  {
    var name, parts := TitleCase(f.name), Split(f.value);
    var ls := PrintedLines(name, f.value);
    SplitIsLines(f.value);
    TitleCaseKeeps(f.name);
    forall l | l in ls
      ensures !Blank(l) && OneLine(l)
    {
      var i :| 0 <= i < |ls| && ls[i] == l;
      assert parts[i] in parts;
      if i == 0 {
        assert l[|name|] == ':';
      } else {
        assert parts[1..][i - 1] in parts[1..];
        hide PrintedLines, Split;
        ContinuedIsNotBlank(parts[i]);
      }
    }
  }

  lemma ContinuedIsNotBlank(part: string)
    requires (part == "" || !Blank(part)) && OneLine(part)
    ensures !Blank(Continued(part)) && OneLine(Continued(part))
  {
    if part == "" {
      assert Continued(part)[1] == '.';
    } else {
      var j :| 0 <= j < |part| && !IsSpace(part[j]);
      assert Continued(part)[j + 1] == part[j];
    }
  }
}
