/** Text as lines: splitting, joining and stripping, as Python's string methods do on ASCII text. */
module Lines {

  /** ASCII white space in the sense of str.isspace. */
  predicate IsSpace(c: char) {
    9 as char <= c <= 13 as char || 28 as char <= c <= 32 as char
  }

  function ToLower(c: char): char {
    if 'A' <= c <= 'Z' then (c as int + 32) as char else c
  }

  function ToUpper(c: char): char {
    if 'a' <= c <= 'z' then (c as int - 32) as char else c
  }

  function Lower(s: string): (l: string)
    ensures |l| == |s| && forall i :: 0 <= i < |s| ==> l[i] == ToLower(s[i])
  {
    seq(|s|, i requires 0 <= i < |s| => ToLower(s[i]))
  }

  predicate OneLine(s: string) {
    '\n' !in s
  }

  predicate Blank(s: string) {
    forall i :: 0 <= i < |s| ==> IsSpace(s[i])
  }

  function StripLeft(s: string): (r: string)
    ensures |r| <= |s| && r == s[|s| - |r|..]
    ensures r != "" ==> !IsSpace(r[0])
    ensures r == "" <==> Blank(s)
  {
    if s != "" && IsSpace(s[0]) then StripLeft(s[1..]) else s
  }

  function StripRight(s: string): (r: string)
    ensures r <= s
    ensures r != "" ==> !IsSpace(r[|r| - 1])
    ensures r == "" <==> Blank(s)
  {
    if s != "" && IsSpace(s[|s| - 1]) then StripRight(s[..|s| - 1]) else s
  }

  function Strip(s: string): string {
    StripRight(StripLeft(s))
  }

  /** Nothing to strip. */
  predicate Stripped(s: string) {
    s == "" || (!IsSpace(s[0]) && !IsSpace(s[|s| - 1]))
  }

  lemma StripIsStripped(s: string)
    ensures Stripped(Strip(s))
    ensures Strip(s) == "" <==> Blank(s)
    ensures forall c :: c in Strip(s) ==> c in s
    ensures Stripped(s) ==> Strip(s) == s
  {
    var l := StripLeft(s);
    assert forall c :: c in l ==> c in s;
    assert StripRight(l) <= l;
  }

  lemma StripAfterBlank(s: string)
    ensures Strip(" " + s) == Strip(s)
  {
    var t := " " + s;
    assert t[0] == ' ' && IsSpace(t[0]) && t[1..] == s;
    hide StripRight;
    assert StripLeft(t) == StripLeft(s);
  }

  // ----- lines -----

  /** One more character at the end of the last line, or a new empty line. */
  function AddChar(ls: seq<string>, c: char): (r: seq<string>)
    requires ls != []
    ensures r != []
  {
    if c == '\n' then ls + [""] else ls[..|ls| - 1] + [ls[|ls| - 1] + [c]]
  }

  function Split(s: string): (ls: seq<string>)
    ensures ls != []
  {
    if s == "" then [""] else AddChar(Split(s[..|s| - 1]), s[|s| - 1])
  }

  /** The lines with a newline between each two. */
  function JoinLines(ls: seq<string>): string {
    if ls == [] then ""
    else if |ls| == 1 then ls[0]
    else JoinLines(ls[..|ls| - 1]) + "\n" + ls[|ls| - 1]
  }

  predicate AllOneLine(ls: seq<string>) {
    forall l :: l in ls ==> OneLine(l)
  }

  lemma AddCharJoins(ls: seq<string>, c: char)
    requires ls != [] && AllOneLine(ls)
    ensures AllOneLine(AddChar(ls, c)) && JoinLines(AddChar(ls, c)) == JoinLines(ls) + [c]
  {
    var n := |ls| - 1;
    var last := ls[n];
    assert last in ls;
    if c == '\n' {
      assert (ls + [""])[..n + 1] == ls;
    } else {
      assert AddChar(ls, c)[..n] == ls[..n];
      assert n > 0 ==> JoinLines(ls[..n]) + "\n" + (last + [c]) == (JoinLines(ls[..n]) + "\n" + last) + [c];
    }
  }

  lemma {:induction false} SplitIsLines(s: string)
    ensures AllOneLine(Split(s)) && JoinLines(Split(s)) == s
  {
    if s != "" {
      hide AddChar, JoinLines;
      SplitIsLines(s[..|s| - 1]);
      AddCharJoins(Split(s[..|s| - 1]), s[|s| - 1]);
      assert s[..|s| - 1] + [s[|s| - 1]] == s;
    }
  }

  lemma AddToOneLine(l: string, c: char)
    requires c != '\n'
    ensures AddChar([l], c) == [l + [c]]
  {
  }

  lemma {:induction false} SplitOneLine(s: string)
    requires OneLine(s)
    ensures Split(s) == [s]
  {
    if s != "" {
      hide Split, AddChar;
      var t, c := s[..|s| - 1], s[|s| - 1];
      assert t + [c] == s && c in s;
      SplitOneLine(t);
      SplitSnoc(t, c);
      AddToOneLine(t, c);
    }
  }

  lemma AddCharBehind(la: seq<string>, lb: seq<string>, c: char)
    requires lb != []
    ensures AddChar(la + lb, c) == la + AddChar(lb, c)
  {
    assert (la + lb)[..|la + lb| - 1] == la + lb[..|lb| - 1];
  }

  /** A newline between two texts splits their lines apart. */
  lemma {:induction false} SplitBetween(a: string, b: string)
    ensures Split(a + "\n" + b) == Split(a) + Split(b)
  {
    if b == "" {
      SplitSnoc(a, '\n');
      assert a + "\n" + b == a + ['\n'];
    } else {
      var n := |b| - 1;
      hide Split, AddChar;
      SplitBetween(a, b[..n]);
      SplitSnoc(a + "\n" + b[..n], b[n]);
      SplitSnoc(b[..n], b[n]);
      assert b[..n] + [b[n]] == b && (a + "\n" + b[..n]) + [b[n]] == a + "\n" + b;
      AddCharBehind(Split(a), Split(b[..n]), b[n]);
    }
  }

  lemma SplitSnoc(s: string, c: char)
    ensures Split(s + [c]) == AddChar(Split(s), c)
  {
    assert (s + [c])[..|s|] == s;
  }

  lemma {:induction false} SplitJoined(ls: seq<string>)
    requires ls != [] && AllOneLine(ls)
    ensures Split(JoinLines(ls)) == ls
  {
    hide Split, AddChar;
    var n := |ls| - 1;
    assert ls[n] in ls;
    SplitOneLine(ls[n]);
    if n > 0 {
      assert forall l :: l in ls[..n] ==> l in ls;
      SplitJoined(ls[..n]);
      SplitBetween(JoinLines(ls[..n]), ls[n]);
      assert ls == ls[..n] + [ls[n]];
    }
  }

  lemma {:induction false} JoinAppend(a: seq<string>, b: seq<string>)
    requires a != [] && b != []
    ensures JoinLines(a + b) == JoinLines(a) + "\n" + JoinLines(b)
  {
    var n := |b| - 1;
    assert (a + b)[..|a + b| - 1] == a + b[..n];
    if n == 0 {
      assert a + b[..n] == a;
    } else {
      JoinAppend(a, b[..n]);
      var ja, jb := JoinLines(a), JoinLines(b[..n]);
      assert (ja + "\n" + jb) + "\n" + b[n] == ja + "\n" + (jb + "\n" + b[n]);
    }
  }

  lemma OneJoined(line: string)
    ensures JoinLines([line]) == line
  {
  }

  lemma JoinPrefixed(prefix: string, ls: seq<string>)
    requires ls != []
    ensures JoinLines([prefix + ls[0]] + ls[1..]) == prefix + JoinLines(ls)
  {
    hide JoinLines;
    var first, rest := ls[0], ls[1..];
    OneJoined(prefix + first);
    OneJoined(first);
    if rest == [] {
      assert ls == [first] && [prefix + first] + rest == [prefix + first];
    } else {
      JoinAppend([prefix + first], rest);
      JoinAppend([first], rest);
      assert [first] + rest == ls;
      assert (prefix + first) + "\n" + JoinLines(rest) == prefix + (first + "\n" + JoinLines(rest));
    }
  }

  // ----- words -----

  /** Maximal runs of characters that are not white space, as str.split() gives. */
  function WordsFrom(s: string, current: string): seq<string> {
    if s == "" then (if current == "" then [] else [current])
    else if IsSpace(s[0]) then (if current == "" then [] else [current]) + WordsFrom(s[1..], "")
    else WordsFrom(s[1..], current + [s[0]])
  }

  function Words(s: string): seq<string> {
    WordsFrom(s, "")
  }

  predicate IsWord(w: string) {
    w != "" && forall i :: 0 <= i < |w| ==> !IsSpace(w[i])
  }

  predicate AllWords(ws: seq<string>) {
    forall w :: w in ws ==> IsWord(w)
  }

  /** Words with a single blank between each two. */
  function JoinWords(ws: seq<string>): string {
    if ws == [] then ""
    else if |ws| == 1 then ws[0]
    else ws[0] + " " + JoinWords(ws[1..])
  }

  lemma {:induction false} WordsAreWords(s: string, current: string)
    requires current != "" ==> IsWord(current)
    ensures AllWords(WordsFrom(s, current))
  {
    if s != "" {
      WordsAreWords(s[1..], "");
      if !IsSpace(s[0]) {
        WordsAreWords(s[1..], current + [s[0]]);
      }
    }
  }

  lemma {:induction false} WordsOfWord(w: string, rest: string, current: string)
    requires forall i :: 0 <= i < |w| ==> !IsSpace(w[i])
    ensures WordsFrom(w + rest, current) == WordsFrom(rest, current + w)
  {
    if w == "" {
      assert w + rest == rest && current + w == current;
    } else {
      assert (w + rest)[1..] == w[1..] + rest;
      WordsOfWord(w[1..], rest, current + [w[0]]);
      assert current + [w[0]] + w[1..] == current + w;
    }
  }

  lemma WordThenBlank(w: string, s: string)
    requires IsWord(w)
    ensures Words(w + " " + s) == [w] + Words(s)
    ensures Words(w) == [w]
  {
    var rest := " " + s;
    assert w + " " + s == w + rest && "" + w == w && w + "" == w && rest[1..] == s;
    WordsOfWord(w, rest, "");
    WordsOfWord(w, "", "");
  }

  lemma {:induction false} WordsOfJoined(ws: seq<string>)
    requires AllWords(ws)
    ensures Words(JoinWords(ws)) == ws
  {
    if ws != [] {
      assert ws[0] in ws;
      assert forall w :: w in ws[1..] ==> w in ws;
      hide WordsFrom, IsWord;
      WordThenBlank(ws[0], JoinWords(ws[1..]));
      WordsOfJoined(ws[1..]);
    }
  }
}
