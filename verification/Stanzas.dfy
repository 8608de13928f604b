/** Debian control files: blocks of lines separated by blank lines, and the fields in a block. */
module Stanzas {
  import opened Lines

  // ----- blocks -----

  /** The maximal runs of lines that are not blank, after a run already begun. */
  function BlocksFrom(lines: seq<string>, current: seq<string>): seq<seq<string>> {
    if lines == [] then Closed(current)
    else if Blank(lines[0]) then Closed(current) + BlocksFrom(lines[1..], [])
    else BlocksFrom(lines[1..], current + [lines[0]])
  }

  function Closed(current: seq<string>): seq<seq<string>> {
    if current == [] then [] else [current]
  }

  function Blocks(text: string): seq<seq<string>> {
    BlocksFrom(Split(text), [])
  }

  function Texts(blocks: seq<seq<string>>): (ts: seq<string>)
    ensures |ts| == |blocks|
  {
    seq(|blocks|, i requires 0 <= i < |blocks| => JoinLines(blocks[i]))
  }

  lemma {:induction false} BlankTextHasNoBlocks(lines: seq<string>)
    requires forall l :: l in lines ==> Blank(l)
    ensures BlocksFrom(lines, []) == []
  {
    if lines != [] {
      assert lines[0] in lines;
      assert forall l :: l in lines[1..] ==> l in lines;
      BlankTextHasNoBlocks(lines[1..]);
    }
  }

  lemma BlankLines(text: string)
    requires Blank(text)
    ensures forall l :: l in Split(text) ==> Blank(l)
  {
    SplitKeepsCharacters(text);
    forall l | l in Split(text)
      ensures Blank(l)
    {
      forall i | 0 <= i < |l|
        ensures IsSpace(l[i])
      {
        assert l[i] in l && l[i] in text;
      }
    }
  }

  lemma {:induction false} SplitKeepsCharacters(text: string)
    ensures forall l, c :: l in Split(text) && c in l ==> c in text
  {
    if text != "" {
      var init := text[..|text| - 1];
      SplitKeepsCharacters(init);
      var ls := Split(init);
      forall l, c | l in Split(text) && c in l
        ensures c in text
      {
        assert ls[|ls| - 1] in ls;
        if l !in ls {
          assert c in ls[|ls| - 1] || c == text[|text| - 1];
        }
      }
    }
  }

  /** Split a text into the blocks of lines between blank lines. */
  method SplitStanzas(content: string) returns (stanzas: seq<string>)
    ensures stanzas == Texts(Blocks(content))
  {
    hide JoinLines, Split, Blank;
    if Blank(content) {
      BlankLines(content);
      BlankTextHasNoBlocks(Split(content));
      return [];
    }
    stanzas := [];
    var current: seq<string> := [];
    var lines := Split(content);
    ghost var closed: seq<seq<string>> := [];
    assert lines[0..] == lines;
    for i := 0 to |lines|
      invariant stanzas == Texts(closed)
      invariant closed + BlocksFrom(lines[i..], current) == Blocks(content)
    {
      var line := lines[i];
      assert lines[i..][0] == line && lines[i..][1..] == lines[i + 1..];
      if Blank(line) {
        if current != [] {
          stanzas := stanzas + [JoinLines(current)];
          closed := closed + [current];
          current := [];
        }
      } else {
        current := current + [line];
      }
    }
    if current != [] {
      stanzas := stanzas + [JoinLines(current)];
      closed := closed + [current];
    }
  }

  predicate NoBlank(lines: seq<string>) {
    forall l :: l in lines ==> !Blank(l) && OneLine(l)
  }

  lemma {:induction false} BlocksHaveNoBlank(lines: seq<string>, current: seq<string>)
    requires NoBlank(current) && AllOneLine(lines)
    ensures forall b :: b in BlocksFrom(lines, current) ==> b != [] && NoBlank(b)
  {
    if lines != [] {
      assert lines[0] in lines;
      assert forall l :: l in lines[1..] ==> l in lines;
      if Blank(lines[0]) {
        BlocksHaveNoBlank(lines[1..], []);
      } else {
        BlocksHaveNoBlank(lines[1..], current + [lines[0]]);
      }
    }
  }

  lemma BlocksOfText(text: string)
    ensures forall b :: b in Blocks(text) ==> b != [] && NoBlank(b)
    ensures forall b :: b in Blocks(text) ==> Split(JoinLines(b)) == b
  {
    SplitIsLines(text);
    BlocksHaveNoBlank(Split(text), []);
    forall b | b in Blocks(text)
      ensures Split(JoinLines(b)) == b
    {
      SplitJoined(b);
    }
  }

  lemma BlockTexts(content: string)
    ensures var texts, blocks := Texts(Blocks(content)), Blocks(content);
            |texts| == |blocks| && forall k :: 0 <= k < |blocks| ==> Split(texts[k]) == blocks[k]
  {
    BlocksOfText(content);
    hide Blocks, Split, JoinLines, NoBlank;
    var blocks := Blocks(content);
    forall k | 0 <= k < |blocks|
      ensures Split(Texts(blocks)[k]) == blocks[k]
    {
      assert blocks[k] in blocks;
    }
  }

  // ----- writing blocks -----

  /** The lines of a document: each block, or an empty line for an empty block, and an empty line. */
  function DocLines(blocks: seq<seq<string>>): seq<string> {
    if blocks == [] then []
    else (if blocks[0] == [] then [""] else blocks[0]) + [""] + DocLines(blocks[1..])
  }

  function NonEmpty<T>(ss: seq<seq<T>>): seq<seq<T>> {
    if ss == [] then [] else (if ss[0] == [] then [] else [ss[0]]) + NonEmpty(ss[1..])
  }

  lemma {:induction false} BlockIsKept(block: seq<string>, rest: seq<string>, current: seq<string>)
    requires NoBlank(block)
    ensures BlocksFrom(block + [""] + rest, current) == Closed(current + block) + BlocksFrom(rest, [])
  {
    var lines := block + [""] + rest;
    if block == [] {
      assert lines[0] == "" && lines[1..] == rest && current + block == current;
    } else {
      assert block[0] in block;
      assert forall l :: l in block[1..] ==> l in block;
      assert lines[0] == block[0] && lines[1..] == block[1..] + [""] + rest;
      BlockIsKept(block[1..], rest, current + [block[0]]);
      assert current + [block[0]] + block[1..] == current + block;
    }
  }

  /** A written document is split into its blocks again, except empty ones. */
  lemma {:induction false} DocLinesSplit(blocks: seq<seq<string>>)
    requires forall b :: b in blocks ==> NoBlank(b)
    ensures BlocksFrom(DocLines(blocks), []) == NonEmpty(blocks)
  {
    if blocks != [] {
      var b, rest := blocks[0], DocLines(blocks[1..]);
      assert b in blocks;
      assert forall x :: x in blocks[1..] ==> x in blocks;
      hide NoBlank, BlocksFrom;
      DocLinesSplit(blocks[1..]);
      if b == [] {
        var empty := [""];
        assert DocLines(blocks) == b + empty + (empty + rest);
        BlockIsKept(b, empty + rest, []);
        assert empty + rest == b + empty + rest;
        BlockIsKept(b, rest, []);
        hide DocLines;
        assert [] + b == b;
      } else {
        hide DocLines;
        BlockIsKept(b, rest, []);
        assert [] + b == b;
      }
    }
  }

  lemma {:induction false} DocLinesAreOneLine(blocks: seq<seq<string>>)
    requires forall b :: b in blocks ==> NoBlank(b)
    ensures AllOneLine(DocLines(blocks))
    ensures blocks != [] ==> DocLines(blocks) != []
  {
    if blocks != [] {
      assert blocks[0] in blocks && forall b :: b in blocks[1..] ==> b in blocks;
      DocLinesAreOneLine(blocks[1..]);
    }
  }

  // ----- fields in order -----

  datatype Field = Field(name: string, value: string)

  predicate IsContinuation(line: string) {
    line != "" && (line[0] == ' ' || line[0] == '\t')
  }

  function ColonIndex(line: string): (i: nat)
    requires ':' in line
    ensures i < |line| && line[i] == ':' && ':' !in line[..i]
  {
    if line[0] == ':' then 0 else 1 + ColonIndex(line[1..])
  }

  lemma ColonAt(line: string, i: nat)
    requires i < |line| && line[i] == ':' && ':' !in line[..i]
    ensures ColonIndex(line) == i
  {
    assert line[ColonIndex(line)] == ':';
  }

  lemma FirstLineSplits(name: string, first: string)
    requires ':' !in name
    ensures var line := name + ": " + first;
            ':' in line && ColonIndex(line) == |name| && line[..|name|] == name && line[|name| + 1..] == " " + first
  {
    var line := name + ": " + first;
    assert line[|name|] == ':' && line[..|name|] == name && line[|name| + 1..] == " " + first;
    ColonAt(line, |name|);
  }

  function DropBlank(s: string): string {
    if s != "" && s[0] == ' ' then s[1..] else s
  }

  /** What one line of a stanza adds to the fields read so far. */
  function AddLine(fields: seq<Field>, line: string): seq<Field> {
    if IsContinuation(line) then
      if fields == [] then []
      else
        var n := |fields| - 1;
        fields[..n] + [Field(fields[n].name, fields[n].value + "\n" + line[1..])]
    else if ':' in line then
      var c := ColonIndex(line);
      fields + [Field(line[..c], DropBlank(line[c + 1..]))]
    else fields
  }

  function AddLines(fields: seq<Field>, lines: seq<string>): seq<Field> {
    if lines == [] then fields else AddLine(AddLines(fields, lines[..|lines| - 1]), lines[|lines| - 1])
  }

  method ParseStanzaFieldsOrdered(stanza: string) returns (fields: seq<Field>)
    ensures fields == AddLines([], Split(stanza))
  {
    hide AddLines, Split, ColonIndex;
    fields := [];
    var lines := Split(stanza);
    AddLinesStep(lines);
    for i := 0 to |lines|
      invariant fields == AddLines([], lines[..i])
    {
      var line := lines[i];
      if IsContinuation(line) {
        if fields != [] {
          var n := |fields| - 1;
          fields := fields[n := Field(fields[n].name, fields[n].value + "\n" + line[1..])];
        }
      } else if ':' in line {
        var colonPos := ColonIndex(line);
        var fieldValue := line[colonPos + 1..];
        if fieldValue != "" && fieldValue[0] == ' ' {
          fieldValue := fieldValue[1..];
        }
        fields := fields + [Field(line[..colonPos], fieldValue)];
      }
    }
  }

  lemma AddLinesStep(lines: seq<string>)
    ensures AddLines([], lines[..0]) == [] && AddLines([], lines[..|lines|]) == AddLines([], lines)
    ensures forall i :: 0 <= i < |lines| ==> AddLines([], lines[..i + 1]) == AddLine(AddLines([], lines[..i]), lines[i])
  {
    hide AddLine;
    assert lines[..|lines|] == lines;
    forall i | 0 <= i < |lines|
      ensures AddLines([], lines[..i + 1]) == AddLine(AddLines([], lines[..i]), lines[i])
    {
      assert lines[..i + 1][..i] == lines[..i];
    }
  }

  /** A field that can be written and read back: a one-line name, and no blank continuation. */
  predicate Legal(f: Field) {
    && OneLine(f.name) && ':' !in f.name && !IsContinuation(f.name)
    && forall i :: 1 <= i < |Split(f.value)| ==> !Blank(Split(f.value)[i])
  }

  predicate AllLegal(fields: seq<Field>) {
    forall f :: f in fields ==> Legal(f)
  }

  lemma ContinuationIsLegal(f: Field, line: string)
    requires Legal(f) && OneLine(line) && !Blank(line)
    ensures Legal(Field(f.name, f.value + "\n" + line))
  {
    SplitOneLine(line);
    SplitBetween(f.value, line);
    hide Split, Blank, OneLine;
  }

  lemma NewFieldIsLegal(line: string)
    requires OneLine(line) && !IsContinuation(line) && ':' in line
    ensures var c := ColonIndex(line); Legal(Field(line[..c], DropBlank(line[c + 1..])))
  {
    hide Split;
    var c := ColonIndex(line);
    var name, value := line[..c], DropBlank(line[c + 1..]);
    assert forall x :: x in name ==> x in line;
    assert forall x :: x in value ==> x in line;
    assert OneLine(name) && OneLine(value);
    assert name != "" ==> name[0] == line[0];
    hide OneLine, DropBlank, ColonIndex;
    SplitOneLine(value);
  }

  lemma LineKeepsLegal(fields: seq<Field>, line: string)
    requires AllLegal(fields) && OneLine(line) && !Blank(line)
    ensures AllLegal(AddLine(fields, line))
  {
    if IsContinuation(line) && fields != [] {
      var f := fields[|fields| - 1];
      assert f in fields && !Blank(line[1..]) && OneLine(line[1..]);
      hide Legal, Blank, OneLine;
      ContinuationIsLegal(f, line[1..]);
    } else if !IsContinuation(line) && ':' in line {
      hide Legal, Blank, OneLine;
      NewFieldIsLegal(line);
    }
  }

  /** Whatever is read from a stanza is legal. */
  lemma {:induction false} ParsedIsLegal(fields: seq<Field>, lines: seq<string>)
    requires AllLegal(fields) && NoBlank(lines)
    ensures AllLegal(AddLines(fields, lines))
  {
    if lines != [] {
      var n := |lines| - 1;
      assert lines[n] in lines;
      assert forall l :: l in lines[..n] ==> l in lines;
      ParsedIsLegal(fields, lines[..n]);
      LineKeepsLegal(AddLines(fields, lines[..n]), lines[n]);
    }
  }
}
