/** The text of a status file, field by field. */
module DpkgText {
  import opened Lines
  import opened Stanzas
  import opened PrintLaws
  import opened Dpkg

  function WrittenField(f: Field): string {
    f.name + ": " + Folded(f.value)
  }

  /** The fields with a newline between each two. */
  function WrittenStanza(fields: seq<Field>): string {
    if fields == [] then ""
    else
      var n := |fields| - 1;
      (if n == 0 then "" else WrittenStanza(fields[..n]) + "\n") + WrittenField(fields[n])
  }

  /** The stanzas, each ended by a newline, with an empty line between each two. */
  function WrittenFile(stanzas: seq<seq<Field>>): string {
    if stanzas == [] then ""
    else WrittenStanza(stanzas[0]) + "\n" + (if |stanzas| == 1 then "" else "\n" + WrittenFile(stanzas[1..]))
  }

  lemma ValueIs(value: string)
    ensures JoinLines(ValueLines(value)) == Folded(value)
  {
    MarkedText(value);
    hide Split, JoinLines;
    forall i | 0 <= i < |Split(value)|
      ensures ValueLines(value)[i] == Marks(Split(value), true)[i]
    {
      MarkIs(Split(value)[i]);
    }
    assert ValueLines(value) == Marks(Split(value), true);
  }

  lemma MarkIs(line: string)
    ensures Continuation(line) == Mark(line, true) + line
  {
    assert line == "." ==> " " + line == " .";
    assert line == "" ==> " ." + line == " .";
  }

  lemma {:induction false} StanzaIs(fields: seq<Field>)
    ensures JoinLines(StanzaLines(fields)) == WrittenStanza(fields)
    ensures fields != [] ==> StanzaLines(fields) != []
  {
    hide JoinLines, FieldLines, ValueLines, Folded;
    if fields == [] {
      NoLines();
    } else {
      var n := |fields| - 1;
      StanzaIs(fields[..n]);
      FieldText(fields[n]);
      ValueIs(fields[n].value);
      if n > 0 {
        JoinAppend(StanzaLines(fields[..n]), FieldLines(fields[n]));
      } else {
        assert StanzaLines(fields) == FieldLines(fields[0]);
        assert "" + WrittenField(fields[0]) == WrittenField(fields[0]);
      }
    }
  }

  lemma NoLines()
    ensures JoinLines([]) == ""
  {
  }

  /** Every file is written as this text. */
  lemma {:induction false} FileIs(stanzas: seq<seq<Field>>)
    ensures Format(stanzas) == WrittenFile(stanzas)
  {
    hide StanzaLines, WrittenStanza, JoinLines, Format;
    SpacedIsFormat(stanzas);
    if stanzas != [] {
      FileIs(stanzas[1..]);
      SpacedIsFormat(stanzas[1..]);
      StanzaIs(stanzas[0]);
      SpacedHead(stanzas, WrittenStanza(stanzas[0]), WrittenFile(stanzas[1..]));
    }
  }
}
