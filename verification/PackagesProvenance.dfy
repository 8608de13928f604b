/** Where in a text a value that is read comes from. */
module PackagesProvenance {
  import opened Results
  import opened Lines
  import opened Stanzas
  import opened Dictionaries
  import opened Packages

  /** The header line of a field with this name whose value begins so. */
  predicate Heads(line: string, name: string, first: string) {
    && !IsContinuation(line) && ':' in line
    && line[..ColonIndex(line)] == name && first == Strip(line[ColonIndex(line) + 1..])
  }

  predicate Continues(line: string, part: string) {
    IsContinuation(line) && line[1..] == part
  }

  /** From line i on, the header of a name and the lines of a value, each continuation line marked. */
  predicate Defines(lines: seq<string>, i: nat, name: string, parts: seq<string>) {
    && parts != [] && i + |parts| <= |lines| && Heads(lines[i], name, parts[0])
    && forall k :: i < k < i + |parts| ==> Continues(lines[k], parts[k - i])
  }

  ghost predicate Defined(lines: seq<string>, name: string, parts: seq<string>) {
    exists i: nat :: Defines(lines, i, name, parts)
  }

  /** A run of consecutive lines. */
  predicate LiesAt(part: seq<string>, lines: seq<string>, s: nat) {
    s + |part| <= |lines| && lines[s..s + |part|] == part
  }

  lemma DefinesWithin(lines: seq<string>, s: nat, part: seq<string>, i: nat, name: string, parts: seq<string>)
    requires LiesAt(part, lines, s) && Defines(part, i, name, parts)
    ensures Defines(lines, s + i, name, parts)
  {
    hide Heads, Continues;
    assert forall k :: 0 <= k < |part| ==> lines[s + k] == part[k];
    forall k | s + i < k < s + i + |parts|
      ensures Continues(lines[k], parts[k - s - i])
    {
      assert Continues(part[k - s], parts[k - s - i]);
    }
  }

  lemma DefinedWithin(lines: seq<string>, s: nat, part: seq<string>, name: string, parts: seq<string>)
    requires LiesAt(part, lines, s) && Defined(part, name, parts)
    ensures Defined(lines, name, parts)
  {
    hide Defines, LiesAt;
    var i: nat :| Defines(part, i, name, parts);
    DefinesWithin(lines, s, part, i, name, parts);
  }

  // ----- within a block -----

  ghost predicate AllDefined(lines: seq<string>, fields: seq<Field>) {
    forall f :: f in fields ==> Defined(lines, f.name, Split(f.value))
  }

  /** The fields read so far are defined in the lines, and the one being read up to their end. */
  ghost predicate ReadingIsDefined(lines: seq<string>, r: Reading) {
    && AllDefined(lines, r.fields)
    && (r.key.Some? ==>
          |r.lines| <= |lines| && AllOneLine(r.lines) && Defines(lines, |lines| - |r.lines|, r.key.value, r.lines))
  }

  lemma {:induction false} PutMembers(fields: seq<Field>, key: string, value: string)
    ensures forall f :: f in Put(fields, key, value) ==> f in fields || f == Field(key, value)
  {
    if fields != [] {
      PutMembers(fields[1..], key, value);
    }
  }

  lemma SavedIsDefined(lines: seq<string>, r: Reading)
    requires ReadingIsDefined(lines, r)
    ensures AllDefined(lines, Saved(r))
  {
    hide Defines, JoinLines, Put, Split;
    if r.key.Some? {
      assert r.lines != [] by {
        HasLines(lines, |lines| - |r.lines|, r.key.value, r.lines);
      }
      SplitJoined(r.lines);
      PutMembers(r.fields, r.key.value, JoinLines(r.lines));
    }
  }

  lemma HasLines(lines: seq<string>, i: nat, name: string, parts: seq<string>)
    requires Defines(lines, i, name, parts)
    ensures parts != []
  {
  }

  lemma StaysDefined(lines: seq<string>, line: string, fields: seq<Field>)
    requires AllDefined(lines, fields)
    ensures AllDefined(lines + [line], fields)
  {
    hide Defines, Defined, Split;
    assert LiesAt(lines, lines + [line], 0);
    forall f | f in fields
      ensures Defined(lines + [line], f.name, Split(f.value))
    {
      DefinedWithin(lines + [line], 0, lines, f.name, Split(f.value));
    }
  }

  lemma ContinuesAsIs(line: string)
    requires IsContinuation(line)
    ensures line != "" && Continues(line, line[1..])
  {
  }

  lemma ContinuesDefinition(lines: seq<string>, line: string, name: string, parts: seq<string>)
    requires |parts| <= |lines| && Defines(lines, |lines| - |parts|, name, parts) && IsContinuation(line)
    ensures Defines(lines + [line], |lines| - |parts|, name, parts + [line[1..]])
  {
    hide Heads, Continues, IsContinuation;
    ContinuesAsIs(line);
    var i, more := |lines| - |parts|, parts + [line[1..]];
    assert (lines + [line])[i] == lines[i] && more[0] == parts[0];
    forall k | i < k < i + |more|
      ensures Continues((lines + [line])[k], more[k - i])
    {
      if k < |lines| {
        assert Continues(lines[k], parts[k - i]);
      }
    }
  }

  lemma StartsDefinition(lines: seq<string>, line: string)
    requires !IsContinuation(line) && ':' in line
    ensures var c := ColonIndex(line); Defines(lines + [line], |lines|, line[..c], [Strip(line[c + 1..])])
  {
    hide IsContinuation, ColonIndex, Strip, Continues;
    assert (lines + [line])[|lines|] == line;
  }

  lemma LineIsDefined(lines: seq<string>, r: Reading, line: string)
    requires ReadingIsDefined(lines, r) && OneLine(line)
    ensures ReadingIsDefined(lines + [line], ReadLine(r, line))
  {
    hide Defines, AllDefined, Strip, Saved, Split;
    if IsContinuation(line) {
      StaysDefined(lines, line, r.fields);
      if r.key.Some? {
        ContinuesDefinition(lines, line, r.key.value, r.lines);
        assert OneLine(line[1..]);
        assert |lines + [line]| - |r.lines + [line[1..]]| == |lines| - |r.lines|;
      }
    } else {
      SavedIsDefined(lines, r);
      StaysDefined(lines, line, Saved(r));
      if ':' in line {
        StartsDefinition(lines, line);
        StripIsStripped(line[ColonIndex(line) + 1..]);
      }
    }
  }

  lemma {:induction false} LinesAreDefined(lines: seq<string>)
    requires AllOneLine(lines)
    ensures ReadingIsDefined(lines, ReadLines(START, lines))
  {
    hide ReadLine, OneLine, Defines;
    if lines == [] {
      assert ReadLines(START, lines) == START;
    } else {
      var n := |lines| - 1;
      assert lines[n] in lines && forall l :: l in lines[..n] ==> l in lines;
      hide ReadingIsDefined;
      LinesAreDefined(lines[..n]);
      LineIsDefined(lines[..n], ReadLines(START, lines[..n]), lines[n]);
      assert lines[..n] + [lines[n]] == lines;
    }
  }

  lemma BlockIsDefined(block: seq<string>)
    requires AllOneLine(block)
    ensures AllDefined(block, FieldsOf(block))
  {
    hide ReadLines, Saved, ReadingIsDefined, AllDefined, OneLine;
    LinesAreDefined(block);
    SavedIsDefined(block, ReadLines(START, block));
  }

  lemma {:induction false} FindIsDefined(lines: seq<string>, fields: seq<Field>, key: string)
    requires AllDefined(lines, fields)
    ensures Find(fields, key).Some? ==> Defined(lines, key, Split(Find(fields, key).value))
  {
    hide Defined, Split;
    if fields != [] {
      assert fields[0] in fields && forall f :: f in fields[1..] ==> f in fields;
      FindIsDefined(lines, fields[1..], key);
    }
  }

  // ----- within a text -----

  ghost predicate LiesIn(part: seq<string>, lines: seq<string>) {
    exists s: nat :: LiesAt(part, lines, s)
  }

  lemma LiesAfter(part: seq<string>, before: seq<string>, rest: seq<string>)
    requires LiesIn(part, rest)
    ensures LiesIn(part, before + rest)
  {
    var s: nat :| LiesAt(part, rest, s);
    var t := |before| + s;
    assert (before + rest)[t..t + |part|] == rest[s..s + |part|];
    assert LiesAt(part, before + rest, t);
  }

  lemma LiesFirst(part: seq<string>, rest: seq<string>)
    ensures LiesIn(part, part + rest)
  {
    assert LiesAt(part, part + rest, 0);
  }

  lemma {:induction false} BlocksLieIn(lines: seq<string>, current: seq<string>)
    ensures forall b :: b in BlocksFrom(lines, current) ==> LiesIn(b, current + lines)
  {
    hide Blank, LiesIn;
    LiesFirst(current, lines);
    if lines != [] {
      var rest := lines[1..];
      if Blank(lines[0]) {
        BlocksLieIn(rest, []);
        assert [] + rest == rest;
        assert current + lines == (current + [lines[0]]) + rest;
        forall b | b in BlocksFrom(rest, [])
          ensures LiesIn(b, current + lines)
        {
          LiesAfter(b, current + [lines[0]], rest);
        }
      } else {
        BlocksLieIn(rest, current + [lines[0]]);
        assert current + [lines[0]] + rest == current + lines;
      }
    }
  }

  lemma BlockLiesIn(text: string, block: seq<string>)
    requires block in Blocks(text)
    ensures LiesIn(block, Split(text)) && AllOneLine(block)
  {
    BlocksOfText(text);
    hide Split, LiesIn, OneLine, Blank;
    BlocksLieIn(Split(text), []);
    assert [] + Split(text) == Split(text);
  }

  /** A value that is read under a key in a block of a text is defined under this key in its lines. */
  lemma ReadIsDefined(text: string, block: seq<string>, key: string)
    requires block in Blocks(text)
    ensures Find(FieldsOf(block), key).Some? ==> Defined(Split(text), key, Split(Find(FieldsOf(block), key).value))
  {
    hide *;
    BlockLiesIn(text, block);
    BlockIsDefined(block);
    FindIsDefined(block, FieldsOf(block), key);
    if Find(FieldsOf(block), key).Some? {
      InTextDefined(block, Split(text), key, Split(Find(FieldsOf(block), key).value));
    }
  }

  lemma InTextDefined(part: seq<string>, lines: seq<string>, name: string, parts: seq<string>)
    requires LiesIn(part, lines) && Defined(part, name, parts)
    ensures Defined(lines, name, parts)
  {
    hide Defined, LiesAt;
    var s: nat :| LiesAt(part, lines, s);
    DefinedWithin(lines, s, part, name, parts);
  }
}
