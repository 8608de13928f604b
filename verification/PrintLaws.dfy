/** The text that each printer writes, character by character and field by field. */
module PrintLaws {
  import opened Results
  import opened Letters
  import opened Lines
  import opened LineLaws
  import opened Stanzas

  // ----- continuation lines -----

  /** The line that starts here is empty. */
  predicate LineEnds(s: string) {
    s == "" || s[0] == '\n'
  }

  /** Every newline is followed by a blank, and by a dot as well where the next line is empty. */
  function Folded(s: string): string {
    if s == "" then ""
    else if s[0] == '\n' then "\n" + (if LineEnds(s[1..]) then " ." else " ") + Folded(s[1..])
    else [s[0]] + Folded(s[1..])
  }

  /** Every newline is followed by a blank. */
  function Shifted(s: string): string {
    if s == "" then "" else [s[0]] + (if s[0] == '\n' then " " else "") + Shifted(s[1..])
  }

  /** What a line that continues a value begins with. */
  function Mark(line: string, dots: bool): string {
    if dots && line == "" then " ." else " "
  }

  function Marks(ls: seq<string>, dots: bool): (r: seq<string>)
    ensures |r| == |ls|
  {
    seq(|ls|, i requires 0 <= i < |ls| => if i == 0 then ls[0] else Mark(ls[i], dots) + ls[i])
  }

  lemma {:induction false} FoldedLine(line: string, rest: string)
    requires OneLine(line)
    ensures Folded(line + rest) == line + Folded(rest) && Shifted(line + rest) == line + Shifted(rest)
  {
    hide Folded, Shifted;
    if line == "" {
      assert line + rest == rest && line + Folded(rest) == Folded(rest) && line + Shifted(rest) == Shifted(rest);
    } else {
      var c, more := line[0], line[1..];
      assert line == [c] + more && c in line && forall x :: x in more ==> x in line;
      FoldedLine(more, rest);
      FoldedOne(c, more + rest);
      assert line + rest == [c] + (more + rest);
      Regroup([c], more, Folded(rest));
      Regroup([c], more, Shifted(rest));
    }
  }

  lemma FoldedOne(c: char, s: string)
    requires c != '\n'
    ensures Folded([c] + s) == [c] + Folded(s) && Shifted([c] + s) == [c] + Shifted(s)
  {
    assert ([c] + s)[1..] == s;
    assert [c] + "" + Shifted(s) == [c] + Shifted(s);
  }

  lemma Regroup(a: string, b: string, c: string)
    ensures a + (b + c) == a + b + c
  {
  }

  lemma SingleLine(s: string)
    ensures |Split(s)| == 1 ==> OneLine(s)
  {
    SplitIsLines(s);
    OneJoined(Split(s)[0]);
    hide Split, JoinLines;
    assert Split(s)[0] in Split(s);
  }

  lemma FirstLine(s: string) returns (line: string, rest: string)
    requires '\n' in s
    ensures OneLine(line) && s == line + "\n" + rest && Split(s) == [line] + Split(rest)
  {
    var ls := Split(s);
    SplitIsLines(s);
    SingleLine(s);
    line, rest := ls[0], JoinLines(ls[1..]);
    hide Split, JoinLines;
    assert ls[0] in ls;
    JoinAppend(ls[..1], ls[1..]);
    assert ls == ls[..1] + ls[1..] && ls[..1] == [line];
    OneJoined(line);
    assert forall l :: l in ls[1..] ==> l in ls;
    SplitJoined(ls[1..]);
  }

  lemma {:induction false} MarkedText(s: string)
    ensures JoinLines(Marks(Split(s), true)) == Folded(s)
    ensures JoinLines(Marks(Split(s), false)) == Shifted(s)
    decreases |s|
  {
    hide JoinLines, Split, Folded, Shifted, OneLine, Marks, Mark;
    if '\n' in s {
      var line, rest := FirstLine(s);
      MarkedText(rest);
      var newline := "\n" + rest;
      FoldedLine(line, newline);
      assert s == line + newline;
      MarkedTail(s, line, rest, true);
      MarkedTail(s, line, rest, false);
      FirstIsEmpty(rest);
      NewlineFolded(rest);
    } else {
      OneLineText(s);
    }
  }

  lemma OneLineText(s: string)
    requires '\n' !in s
    ensures JoinLines(Marks(Split(s), true)) == Folded(s) == s && JoinLines(Marks(Split(s), false)) == Shifted(s) == s
  {
    SplitOneLine(s);
    FoldedLine(s, "");
    assert s + "" == s && Folded("") == "" && Shifted("") == "";
    assert Marks([s], true) == [s] && Marks([s], false) == [s];
  }

  lemma NewlineFolded(rest: string)
    ensures Folded("\n" + rest) == "\n" + ((if LineEnds(rest) then " ." else " ") + Folded(rest))
    ensures Shifted("\n" + rest) == "\n" + (" " + Shifted(rest))
  {
    var s := "\n" + rest;
    assert s[0] == '\n' && s[1..] == rest;
    assert Folded(s) == "\n" + (if LineEnds(rest) then " ." else " ") + Folded(rest);
    assert Shifted(s) == ['\n'] + " " + Shifted(rest);
    hide Folded, Shifted, LineEnds;
  }

  lemma FirstIsEmpty(rest: string)
    ensures Mark(Split(rest)[0], true) == (if LineEnds(rest) then " ." else " ") && Mark(Split(rest)[0], false) == " "
  {
    hide Split;
    if '\n' in rest {
      var line, more := FirstLine(rest);
      NoNewlineFirst(line);
      assert rest[0] == if line == "" then '\n' else line[0];
    } else {
      SplitOneLine(rest);
      assert rest != "" ==> rest[0] in rest;
    }
  }

  lemma NoNewlineFirst(line: string)
    requires OneLine(line)
    ensures line != "" ==> line[0] != '\n'
  {
  }

  lemma MarkedTail(s: string, line: string, rest: string, dots: bool)
    requires Split(s) == [line] + Split(rest)
    ensures JoinLines(Marks(Split(s), dots))
            == line + ("\n" + (Mark(Split(rest)[0], dots) + JoinLines(Marks(Split(rest), dots))))
  {
    hide JoinLines, Split, Mark, OneLine;
    var ms, rs := Marks(Split(s), dots), Marks(Split(rest), dots);
    var prefix := Mark(Split(rest)[0], dots);
    assert ms[..1] == [line] && ms == ms[..1] + ms[1..];
    JoinAppend(ms[..1], ms[1..]);
    OneJoined(line);
    assert ms[1..] == [prefix + rs[0]] + rs[1..];
    hide Marks;
    JoinPrefixed(prefix, rs);
    Regroup(line, "\n", prefix + JoinLines(rs));
  }
}
