/** The three kinds of copyright paragraph and the fields they are written with. */
module Dep5Kinds {
  import opened Results
  import opened Lines
  import opened Stanzas
  import opened Dictionaries
  import opened Dep5Document
  import opened Dep5Parser
  import opened Dep5RoundTrip

  // ----- known fields followed by extra ones -----

  predicate GoodKeys(keys: seq<string>) {
    DistinctKeys(keys) && forall k :: k in keys ==> GoodKey(k)
  }

  predicate AllOptional(values: seq<Option<string>>) {
    forall v :: v in values ==> GoodOptional(v)
  }

  function UndotAll(values: seq<Option<string>>): (r: seq<Option<string>>)
    ensures |r| == |values|
  {
    seq(|values|, i requires 0 <= i < |values| => UndotOptional(values[i]))
  }

  lemma {:induction false} UndotKnown(keys: seq<string>, values: seq<Option<string>>, extra: seq<Field>, i: nat)
    requires i <= |keys| == |values|
    ensures UndotFields(Known(keys, values, i) + extra) == Known(keys, UndotAll(values), i) + UndotFields(extra)
    decreases |keys| - i
  {
    hide UndotValue;
    if i == |keys| {
      assert Known(keys, values, i) + extra == extra;
    } else {
      var head, tail := Optional(keys[i], values[i]), Known(keys, values, i + 1);
      assert Known(keys, values, i) + extra == head + (tail + extra);
      UndotKnown(keys, values, extra, i + 1);
      hide UndotFields;
      UndotInTwo(head, tail + extra);
      UndotOne(keys[i], values[i]);
    }
  }

  lemma UndotInTwo(a: seq<Field>, b: seq<Field>)
    ensures UndotFields(a + b) == UndotFields(a) + UndotFields(b)
  {
    hide UndotField;
  }

  lemma UndotOne(key: string, value: Option<string>)
    ensures UndotFields(Optional(key, value)) == Optional(key, UndotOptional(value))
  {
    hide UndotValue;
  }

  lemma {:induction false} KnownIsGood(keys: seq<string>, values: seq<Option<string>>, extra: seq<Field>, i: nat)
    requires i <= |keys| == |values|
    requires GoodKeys(keys) && AllOptional(values)
    requires GoodFields(extra) && NoneNamed(extra, keys)
    ensures GoodFields(Known(keys, values, i) + extra)
    decreases |keys| - i
  {
    hide GoodKey, GoodValue, GoodFields, NoneNamed, DistinctKeys;
    if i == |keys| {
      assert Known(keys, values, i) + extra == extra;
    } else {
      KnownIsGood(keys, values, extra, i + 1);
      LaterNamesDiffer(keys, values, extra, i);
      var head, rest := Optional(keys[i], values[i]), Known(keys, values, i + 1) + extra;
      assert keys[i] in keys && values[i] in values;
      assert Known(keys, values, i) + extra == head + rest;
      hide AllOptional, GoodKeys, Known;
      if values[i].Some? {
        OneMoreIsGood(Field(keys[i], values[i].value), rest);
      } else {
        assert head + rest == rest;
      }
    }
  }

  lemma OneMoreIsGood(f: Field, fields: seq<Field>)
    requires GoodField(f) && GoodFields(fields)
    requires forall x :: x in fields ==> x.name != f.name
    ensures GoodFields([f] + fields)
  {
    hide GoodField;
    var all := [f] + fields;
    forall i, j | 0 <= i < j < |all|
      ensures all[i].name != all[j].name
    {
      assert all[j] == fields[j - 1] && fields[j - 1] in fields;
      assert i > 0 ==> all[i] == fields[i - 1];
    }
  }

  lemma {:induction false} FindIsGood(fields: seq<Field>, key: string)
    requires forall f :: f in fields ==> GoodField(f)
    ensures GoodOptional(Find(fields, key))
  {
    hide GoodKey, GoodValue;
    if fields != [] {
      assert fields[0] in fields && forall f :: f in fields[1..] ==> f in fields;
      FindIsGood(fields[1..], key);
    }
  }

  lemma NoFieldsAreGood()
    ensures GoodFields([])
  {
  }

  lemma OneLessIsGood(fields: seq<Field>)
    requires fields != [] && GoodFields(fields)
    ensures GoodField(fields[0]) && GoodFields(fields[1..])
    ensures forall x :: x in fields[1..] ==> x.name != fields[0].name
  {
    hide GoodField;
    var rest := fields[1..];
    assert forall i :: 0 <= i < |rest| ==> rest[i] == fields[i + 1];
  }

  lemma {:induction false} ExtraIsGood(fields: seq<Field>, known: seq<string>)
    requires GoodFields(fields)
    ensures GoodFields(Extra(fields, known)) && NoneNamed(Extra(fields, known), known)
    ensures forall f :: f in Extra(fields, known) ==> f in fields
  {
    hide GoodField, GoodFields;
    if fields == [] {
      NoFieldsAreGood();
    } else {
      var f, rest := fields[0], fields[1..];
      assert f in fields && forall x :: x in rest ==> x in fields;
      OneLessIsGood(fields);
      ExtraIsGood(rest, known);
      assert [] + Extra(rest, known) == Extra(rest, known);
      if f.name !in known {
        OneMoreIsGood(f, Extra(rest, known));
      }
    }
  }

  // ----- values -----

  lemma UndotSplits(value: string)
    ensures Split(UndotValue(value)) == UndotLines(Split(value))
    ensures GoodValue(value) ==> GoodValue(UndotValue(value))
    ensures OneLine(value) ==> UndotValue(value) == value
  {
    var parts := Split(value);
    SplitIsLines(value);
    assert AllOneLine(UndotLines(parts)) by {
      UndotIsOneLine(parts[1..]);
    }
    SplitJoined(UndotLines(parts));
    UndotIsGood(parts[1..]);
    assert UndotLines(parts)[1..] == UndotRest(parts[1..]);
    if OneLine(value) {
      SplitOneLine(value);
      assert UndotLines([value]) == [value];
    }
  }

  lemma UndotIsOneLine(lines: seq<string>)
    requires AllOneLine(lines)
    ensures AllOneLine(UndotRest(lines))
  {
    forall l | l in UndotRest(lines)
      ensures OneLine(l)
    {
      var i :| 0 <= i < |lines| && UndotRest(lines)[i] == l;
      assert lines[i] in lines;
    }
  }

  lemma UndotIsGood(lines: seq<string>)
    ensures GoodRest(lines) ==> GoodRest(UndotRest(lines))
  {
    hide Blank;
    if GoodRest(lines) {
      forall l | l in UndotRest(lines)
        ensures l == "" || !Blank(l)
      {
        var i :| 0 <= i < |lines| && UndotRest(lines)[i] == l;
        assert lines[i] in lines;
      }
    }
  }

  lemma UndotTextSplits(text: string)
    ensures Split(UndotText(text)) == UndotRest(Split(text))
    ensures GoodRest(Split(text)) ==> GoodRest(Split(UndotText(text)))
  {
    SplitIsLines(text);
    UndotIsOneLine(Split(text));
    SplitJoined(UndotRest(Split(text)));
    UndotIsGood(Split(text));
  }

  lemma UndotOptionalIsGood(value: Option<string>)
    requires GoodOptional(value)
    ensures GoodOptional(UndotOptional(value))
  {
    if value.Some? {
      UndotSplits(value.value);
    }
  }

  lemma UndotFieldsAreGood(fields: seq<Field>, keys: seq<string>)
    requires GoodFields(fields) && NoneNamed(fields, keys)
    ensures GoodFields(UndotFields(fields)) && NoneNamed(UndotFields(fields), keys)
  {
    hide GoodKey, GoodValue, UndotValue;
    var u := UndotFields(fields);
    forall f | f in u
      ensures GoodField(f) && f.name !in keys
    {
      var i :| 0 <= i < |u| && u[i] == f;
      assert fields[i] in fields;
      UndotSplits(fields[i].value);
    }
  }

  /** A license value is split into its name and its text again. */
  lemma LicenseSplits(name: string, text: Option<string>)
    requires GoodName(name)
    ensures var parts := Split(LicenseValue(name, text));
            && Strip(parts[0]) == name && parts[0] == name
            && (text.Some? <==> |parts| > 1)
            && (text.Some? ==> parts[1..] == Split(text.value) && JoinLines(parts[1..]) == text.value)
  {
    hide Split, Strip, JoinLines, OneLine;
    SplitOneLine(name);
    StripIsStripped(name);
    if text.Some? {
      SplitBetween(name, text.value);
      SplitIsLines(text.value);
      var rest := Split(text.value);
      assert ([name] + rest)[1..] == rest && ([name] + rest)[0] == name;
    }
  }

  lemma LicenseIsGood(name: string, text: Option<string>)
    requires GoodName(name) && GoodText(text)
    ensures GoodValue(LicenseValue(name, text))
  {
    LicenseSplits(name, text);
    assert |Split(LicenseValue(name, text))| == 1 ==> Split(LicenseValue(name, text))[1..] == [];
  }

  lemma UndotLicenseValue(name: string, text: Option<string>)
    requires GoodName(name)
    ensures UndotValue(LicenseValue(name, text)) == LicenseValue(name, UndotOptionalText(text))
  {
    LicenseSplits(name, text);
    var value := LicenseValue(name, text);
    hide Strip, GoodName;
    if text.Some? {
      var rest := Split(text.value);
      assert UndotLines(Split(value)) == [name] + UndotRest(rest);
      hide UndotLines, Split, UndotRest;
      JoinAppend([name], UndotRest(rest));
      assert JoinLines([name]) == name;
    } else {
      UndotSplits(value);
    }
  }

  lemma WordsAreGood(words: seq<string>)
    requires AllWords(words)
    ensures OneLine(JoinWords(words)) && Stripped(JoinWords(words))
    ensures GoodValue(JoinWords(words)) && UndotValue(JoinWords(words)) == JoinWords(words)
  {
    WordsJoin(words);
    SplitOneLine(JoinWords(words));
    UndotSplits(JoinWords(words));
  }

  lemma {:induction false} WordsJoin(words: seq<string>)
    requires AllWords(words)
    ensures OneLine(JoinWords(words)) && Stripped(JoinWords(words))
    ensures words != [] ==> JoinWords(words) != ""
  {
    if words != [] {
      assert words[0] in words && forall w :: w in words[1..] ==> w in words;
      assert OneLine(words[0]);
      WordsJoin(words[1..]);
      if |words| > 1 {
        var rest := JoinWords(words[1..]);
        var all := words[0] + " " + rest;
        assert all[0] == words[0][0] && all[|all| - 1] == rest[|rest| - 1];
      }
    }
  }
}
