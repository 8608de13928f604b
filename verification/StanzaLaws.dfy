/** How any text is cut into stanzas and fields, told from its lines. */
module StanzaLaws {
  import opened Letters
  import opened Lines
  import opened LineLaws
  import opened Stanzas

  // ----- stanzas -----

  predicate AllSpacing(lines: seq<string>) {
    forall i :: 0 <= i < |lines| ==> OnlySpacing(lines[i])
  }

  predicate NoneSpacing(lines: seq<string>) {
    forall i :: 0 <= i < |lines| ==> !OnlySpacing(lines[i])
  }

  /** The lines are these stanzas with at least one line of spacing between each two, and any around them. */
  ghost predicate StanzasAre(lines: seq<string>, blocks: seq<seq<string>>)
    decreases |blocks|
  {
    if blocks == [] then AllSpacing(lines)
    else exists before, rest :: FirstStanza(lines, before, blocks[0], rest) && StanzasAre(rest, blocks[1..])
  }

  predicate FirstStanza(lines: seq<string>, before: seq<string>, block: seq<string>, rest: seq<string>) {
    && lines == before + block + rest && AllSpacing(before) && block != [] && NoneSpacing(block)
    && (rest != [] ==> OnlySpacing(rest[0]))
  }

  lemma {:induction false} SpacingSeparates(before: seq<string>, lines: seq<string>)
    requires AllSpacing(before)
    ensures BlocksFrom(before + lines, []) == BlocksFrom(lines, [])
  {
    hide OnlySpacing, Blank;
    var all := before + lines;
    if before == [] {
      assert all == lines;
    } else {
      assert all[0] == before[0] && all[1..] == before[1..] + lines;
      BlankIs(before[0]);
      SpacingSeparates(before[1..], lines);
    }
  }

  lemma {:induction false} LinesGather(block: seq<string>, rest: seq<string>, current: seq<string>)
    requires NoneSpacing(block)
    ensures BlocksFrom(block + rest, current) == BlocksFrom(rest, current + block)
  {
    hide OnlySpacing, Blank;
    var all := block + rest;
    if block == [] {
      assert all == rest && current + block == current;
    } else {
      assert all[0] == block[0] && all[1..] == block[1..] + rest;
      BlankIs(block[0]);
      LinesGather(block[1..], rest, current + [block[0]]);
      assert current + [block[0]] + block[1..] == current + block;
    }
  }

  lemma BlockEnds(rest: seq<string>, current: seq<string>)
    requires current != [] && (rest != [] ==> OnlySpacing(rest[0]))
    ensures BlocksFrom(rest, current) == [current] + BlocksFrom(rest, [])
  {
    if rest != [] {
      BlankIs(rest[0]);
    }
    hide OnlySpacing, Blank;
  }

  lemma OneStanza(lines: seq<string>, before: seq<string>, block: seq<string>, rest: seq<string>)
    requires FirstStanza(lines, before, block, rest)
    ensures BlocksFrom(lines, []) == [block] + BlocksFrom(rest, [])
  {
    hide BlocksFrom, OnlySpacing;
    assert lines == before + (block + rest);
    SpacingSeparates(before, block + rest);
    LinesGather(block, rest, []);
    assert [] + block == block;
    BlockEnds(rest, block);
  }

  lemma NoStanzas(lines: seq<string>)
    requires AllSpacing(lines)
    ensures BlocksFrom(lines, []) == []
  {
    SpacingSeparates(lines, []);
    assert lines + [] == lines;
  }

  lemma {:induction false} FindFirstStanza(lines: seq<string>)
    returns (before: seq<string>, block: seq<string>, rest: seq<string>)
    requires !AllSpacing(lines)
    ensures FirstStanza(lines, before, block, rest) && (!OnlySpacing(lines[0]) ==> before == [])
  {
    hide OnlySpacing;
    if OnlySpacing(lines[0]) {
      assert forall i :: 1 <= i < |lines| ==> lines[i] == lines[1..][i - 1];
      before, block, rest := FindFirstStanza(lines[1..]);
      before := [lines[0]] + before;
      assert lines == before + block + rest;
    } else if |lines| == 1 || OnlySpacing(lines[1]) {
      before, block, rest := [], lines[..1], lines[1..];
      assert lines == before + block + rest;
    } else {
      assert lines[1..][0] == lines[1];
      before, block, rest := FindFirstStanza(lines[1..]);
      block := [lines[0]] + block;
      assert lines == before + block + rest;
    }
  }

  lemma {:induction false} StanzasExist(lines: seq<string>)
    ensures StanzasAre(lines, BlocksFrom(lines, []))
    decreases |lines|
  {
    if AllSpacing(lines) {
      NoStanzas(lines);
    } else {
      var before, block, rest := FindFirstStanza(lines);
      OneStanza(lines, before, block, rest);
      StanzasExist(rest);
      hide BlocksFrom, FirstStanza;
      var bs := BlocksFrom(lines, []);
      assert bs[0] == block && bs[1..] == BlocksFrom(rest, []);
      assert FirstStanza(lines, before, bs[0], rest) && StanzasAre(rest, bs[1..]);
    }
  }

  lemma {:induction false} StanzasAreBlocks(lines: seq<string>, blocks: seq<seq<string>>)
    requires StanzasAre(lines, blocks)
    ensures BlocksFrom(lines, []) == blocks
    decreases |blocks|
  {
    if blocks == [] {
      NoStanzas(lines);
    } else {
      var before, rest :| FirstStanza(lines, before, blocks[0], rest) && StanzasAre(rest, blocks[1..]);
      OneStanza(lines, before, blocks[0], rest);
      StanzasAreBlocks(rest, blocks[1..]);
      assert blocks == [blocks[0]] + blocks[1..];
    }
  }

  /** A text is cut into exactly these stanzas. */
  lemma BlocksIs(text: string, blocks: seq<seq<string>>)
    ensures Blocks(text) == blocks <==> StanzasAre(Split(text), blocks)
  {
    hide BlocksFrom, StanzasAre, Split;
    StanzasExist(Split(text));
    if StanzasAre(Split(text), blocks) {
      StanzasAreBlocks(Split(text), blocks);
    }
  }

  // ----- fields -----

  predicate Indented(line: string) {
    line != "" && (line[0] == ' ' || line[0] == '\t')
  }

  /** A line that starts a field. */
  predicate Starts(line: string) {
    !Indented(line) && exists i :: 0 <= i < |line| && line[i] == ':'
  }

  predicate NoneStarts(lines: seq<string>) {
    forall i :: 0 <= i < |lines| ==> !Starts(lines[i])
  }

  /** The indented lines, without the character that indents them. */
  function Continuations(lines: seq<string>): seq<string> {
    if lines == [] then []
    else Continuations(lines[..|lines| - 1])
         + (if Indented(lines[|lines| - 1]) then [lines[|lines| - 1][1..]] else [])
  }

  function Continued(value: string, more: seq<string>): string {
    if more == [] then value else Continued(value, more[..|more| - 1]) + "\n" + more[|more| - 1]
  }

  lemma StartsIs(line: string)
    ensures Indented(line) <==> IsContinuation(line)
    ensures Starts(line) <==> !IsContinuation(line) && ':' in line
  {
  }

  /** A line that starts a field ends what was read before: fields before it do not change any more. */
  lemma {:induction false} FieldsInTwo(fields: seq<Field>, header: string, more: seq<string>)
    requires Starts(header)
    ensures AddLines(fields, [header] + more) == fields + AddLines([], [header] + more)
    ensures AddLines([], [header] + more) != []
  {
    hide Starts, IsContinuation, ColonIndex;
    StartsIs(header);
    var lines := [header] + more;
    var n := |lines| - 1;
    if more == [] {
      assert lines[..n] == [] && lines[n] == header;
      assert AddLines([], []) == [] && AddLines(fields, []) == fields;
      assert AddLines(fields, lines) == AddLine(fields, header) && AddLines([], lines) == AddLine([], header);
    } else {
      assert lines[..n] == [header] + more[..|more| - 1] && lines[n] == more[|more| - 1];
      FieldsInTwo(fields, header, more[..|more| - 1]);
      LaterField(fields, AddLines([], lines[..n]), lines[n]);
    }
  }

  lemma LaterField(fields: seq<Field>, more: seq<Field>, line: string)
    requires more != []
    ensures AddLine(fields + more, line) == fields + AddLine(more, line) && AddLine(more, line) != []
  {
    hide ColonIndex;
    var all, n, m := fields + more, |fields + more| - 1, |more| - 1;
    assert all[..n] == fields + more[..m] && all[n] == more[m];
  }

  /** Lines before the first field say nothing. */
  lemma {:induction false} NoFields(lines: seq<string>)
    requires NoneStarts(lines)
    ensures AddLines([], lines) == []
  {
    hide Starts, IsContinuation;
    if lines != [] {
      var n := |lines| - 1;
      NoFields(lines[..n]);
      StartsIs(lines[n]);
    }
  }

  /** One field: the name before the first colon, the text after it without one blank, and every indented line up
      to the next field, lines that are neither left out. */
  lemma {:induction false} OneField(name: string, text: string, more: seq<string>)
    requires !Indented(name + ":") && ':' !in name && NoneStarts(more)
    ensures var first := if text != "" && text[0] == ' ' then text[1..] else text;
            AddLines([], [name + ":" + text] + more) == [Field(name, Continued(first, Continuations(more)))]
  {
    var header := name + ":" + text;
    var lines := [header] + more;
    var n := |lines| - 1;
    hide Starts;
    if more == [] {
      assert header[|name|] == ':' && header[..|name|] == name && header[|name| + 1..] == text;
      ColonAt(header, |name|);
      assert header[0] == (name + ":")[0];
      assert lines[..n] == [] && lines[n] == header;
      assert AddLines([], lines) == AddLine([], header);
    } else {
      assert lines[..n] == [header] + more[..|more| - 1] && lines[n] == more[|more| - 1];
      OneField(name, text, more[..|more| - 1]);
      StartsIs(lines[n]);
      hide IsContinuation, ColonIndex;
      AddOne(lines);
      ContinuedOnce(more, if text != "" && text[0] == ' ' then text[1..] else text);
    }
  }

  lemma AddOne(lines: seq<string>)
    requires lines != []
    ensures AddLines([], lines) == AddLine(AddLines([], lines[..|lines| - 1]), lines[|lines| - 1])
  {
  }

  lemma ContinuedOnce(more: seq<string>, first: string)
    requires more != []
    ensures var (init, last) := (more[..|more| - 1], more[|more| - 1]);
            Continued(first, Continuations(more))
            == if Indented(last) then Continued(first, Continuations(init)) + "\n" + last[1..]
               else Continued(first, Continuations(init))
  {
    var init, last := more[..|more| - 1], more[|more| - 1];
    var cs := Continuations(init);
    if Indented(last) {
      assert Continuations(more) == cs + [last[1..]];
      assert (cs + [last[1..]])[..|cs|] == cs;
    } else {
      assert Continuations(more) == cs + [];
      assert cs + [] == cs;
    }
  }

  /** Every stanza is read field by field: what comes before a line that starts a field, and what comes from it. */
  lemma {:induction false} StanzaIsFields(before: seq<string>, header: string, more: seq<string>)
    requires Starts(header)
    ensures AddLines([], before + ([header] + more)) == AddLines([], before) + AddLines([], [header] + more)
  {
    hide Starts;
    LinesInTwo([], before, [header] + more);
    FieldsInTwo(AddLines([], before), header, more);
  }

  lemma {:induction false} LinesInTwo(fields: seq<Field>, a: seq<string>, b: seq<string>)
    ensures AddLines(fields, a + b) == AddLines(AddLines(fields, a), b)
  {
    hide AddLine;
    if b == [] {
      assert a + b == a;
    } else {
      var n := |b| - 1;
      assert (a + b)[..|a + b| - 1] == a + b[..n] && (a + b)[|a + b| - 1] == b[n];
      LinesInTwo(fields, a, b[..n]);
    }
  }
}
