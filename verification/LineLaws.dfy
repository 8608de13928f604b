/** What blank, stripped, lower-case text, lines and words are, told from the characters. */
module LineLaws {
  import opened Lines
  import opened Letters

  lemma SpaceIs(c: char)
    ensures IsSpace(c) <==> Spacing(c)
  {
  }

  lemma BlankIs(s: string)
    ensures Blank(s) <==> OnlySpacing(s)
  {
    forall c: char ensures IsSpace(c) <==> Spacing(c) { SpaceIs(c); }
    hide IsSpace, Spacing;
  }

  lemma LowerIs(c: char, d: char)
    ensures SameLetter(c, d) <==> ToLower(c) == ToLower(d)
    ensures SameLetter(c, d) <==> ToUpper(c) == ToUpper(d)
    ensures !('A' <= ToLower(c) <= 'Z') && !('a' <= ToUpper(c) <= 'z')
    ensures SameLetter(c, ToLower(c)) && SameLetter(c, ToUpper(c))
  {
  }

  /** Stripping takes off all spacing at both ends and nothing else. */
  lemma StripIs(s: string, t: string)
    ensures t == Strip(s) <==>
            && (t == "" || (!Spacing(t[0]) && !Spacing(t[|t| - 1])))
            && exists before: string, after: string :: StripsTo(s, before, t, after)
  {
    hide IsSpace, Spacing, Strip, OnlySpacing, Blank;
    StripParts(s);
    if t != "" {
      SpaceIs(t[0]);
      SpaceIs(t[|t| - 1]);
    }
    if before: string, after: string :|
      StripsTo(s, before, t, after) && (t == "" || (!Spacing(t[0]) && !Spacing(t[|t| - 1]))) {
      BlankIs(before);
      BlankIs(after);
      StrippedText(before, t, after);
    }
  }

  predicate StripsTo(s: string, before: string, t: string, after: string) {
    s == before + t + after && OnlySpacing(before) && OnlySpacing(after)
  }

  lemma {:induction false} StripLeftOf(before: string, t: string)
    requires Blank(before) && (t == "" || !IsSpace(t[0]))
    ensures StripLeft(before + t) == t
  {
    var s := before + t;
    if before == "" {
      assert s == t;
    } else {
      assert s[0] == before[0] && s[1..] == before[1..] + t;
      StripLeftOf(before[1..], t);
    }
  }

  lemma {:induction false} StripRightOf(t: string, after: string)
    requires Blank(after) && (t == "" || !IsSpace(t[|t| - 1]))
    ensures StripRight(t + after) == t
  {
    var s := t + after;
    if after == "" {
      assert s == t;
    } else {
      assert s[|s| - 1] == after[|after| - 1] && s[..|s| - 1] == t + after[..|after| - 1];
      StripRightOf(t, after[..|after| - 1]);
    }
  }

  lemma StrippedText(before: string, t: string, after: string)
    requires Blank(before) && Blank(after) && (t == "" || (!IsSpace(t[0]) && !IsSpace(t[|t| - 1])))
    ensures Strip(before + t + after) == t
  {
    hide StripLeft, StripRight;
    if t == "" {
      var s := before + t + after;
      assert Blank(s) by {
        assert forall i :: 0 <= i < |s| ==> s[i] == if i < |before| then before[i] else after[i - |before|];
      }
      assert StripLeft(s) == "";
      assert StripRight("") == "";
    } else {
      assert (t + after)[0] == t[0] && before + t + after == before + (t + after);
      StripLeftOf(before, t + after);
      StripRightOf(t, after);
    }
  }

  lemma {:induction false} StripLeftRemainder(s: string)
    ensures Blank(s[..|s| - |StripLeft(s)|])
  {
    if s != "" && IsSpace(s[0]) {
      StripLeftRemainder(s[1..]);
      var k := |s| - |StripLeft(s)|;
      assert forall i :: 1 <= i < k ==> s[..k][i] == s[1..][..k - 1][i - 1];
    }
  }

  lemma {:induction false} StripRightRemainder(s: string)
    ensures Blank(s[|StripRight(s)|..])
  {
    if s != "" && IsSpace(s[|s| - 1]) {
      StripRightRemainder(s[..|s| - 1]);
      var k := |StripRight(s)|;
      assert s[k..] == s[..|s| - 1][k..] + [s[|s| - 1]];
    }
  }

  lemma StripParts(s: string)
    ensures var t := Strip(s);
            && (t == "" || (!Spacing(t[0]) && !Spacing(t[|t| - 1])))
            && exists before: string, after: string :: StripsTo(s, before, t, after)
  {
    hide IsSpace, Spacing, StripLeft, StripRight, OnlySpacing, Blank;
    var l := StripLeft(s);
    var t := StripRight(l);
    StripLeftRemainder(s);
    StripRightRemainder(l);
    StripIsStripped(s);
    var before, after := s[..|s| - |l|], l[|t|..];
    BlankIs(before);
    BlankIs(after);
    assert s == before + t + after;
    assert StripsTo(s, before, t, after);
    if t != "" {
      SpaceIs(t[0]);
      SpaceIs(t[|t| - 1]);
    }
  }

  lemma StripRest(s: string) returns (before: string, after: string)
    ensures s == before + Strip(s) + after && Blank(before) && Blank(after)
  {
    hide StripLeft, StripRight, Blank;
    var l := StripLeft(s);
    var t := StripRight(l);
    StripLeftRemainder(s);
    StripRightRemainder(l);
    before, after := s[..|s| - |l|], l[|t|..];
  }

  // ----- words -----

  lemma {:induction false} BlanksSeparate(before: string, s: string)
    requires Blank(before)
    ensures WordsFrom(before + s, "") == WordsFrom(s, "")
  {
    var t := before + s;
    if before == "" {
      assert t == s;
    } else {
      assert t[0] == before[0] && t[1..] == before[1..] + s;
      BlanksSeparate(before[1..], s);
    }
  }

  lemma {:induction false} LettersGather(word: string, rest: string, current: string)
    requires forall i :: 0 <= i < |word| ==> !IsSpace(word[i])
    ensures WordsFrom(word + rest, current) == WordsFrom(rest, current + word)
  {
    var t := word + rest;
    if word == "" {
      assert t == rest && current + word == current;
    } else {
      assert t[0] == word[0] && t[1..] == word[1..] + rest;
      LettersGather(word[1..], rest, current + [word[0]]);
      assert current + [word[0]] + word[1..] == current + word;
    }
  }

  lemma WordEnds(rest: string, current: string)
    requires current != "" && (rest != "" ==> IsSpace(rest[0]))
    ensures WordsFrom(rest, current) == [current] + WordsFrom(rest, "")
  {
  }

  lemma OneWord(s: string, before: string, word: string, rest: string)
    requires FirstWord(s, before, word, rest)
    ensures Words(s) == [word] + Words(rest)
  {
    forall c: char ensures IsSpace(c) <==> Spacing(c) { SpaceIs(c); }
    hide Spacing, WordsFrom, IsSpace;
    assert s == before + (word + rest);
    BlanksSeparate(before, word + rest);
    LettersGather(word, rest, "");
    assert "" + word == word;
    WordEnds(rest, word);
  }

  lemma {:induction false} FindFirstWord(s: string) returns (before: string, word: string, rest: string)
    requires !OnlySpacing(s)
    ensures FirstWord(s, before, word, rest) && (!Spacing(s[0]) ==> before == "")
  {
    hide Spacing;
    if Spacing(s[0]) {
      assert forall i :: 1 <= i < |s| ==> s[i] == s[1..][i - 1];
      before, word, rest := FindFirstWord(s[1..]);
      before := [s[0]] + before;
      assert s == before + word + rest;
    } else if |s| == 1 || Spacing(s[1]) {
      before, word, rest := "", s[..1], s[1..];
      assert s == before + word + rest;
    } else {
      assert s[1..][0] == s[1];
      before, word, rest := FindFirstWord(s[1..]);
      word := [s[0]] + word;
      assert s == before + word + rest;
    }
  }

  lemma NoWords(s: string)
    requires OnlySpacing(s)
    ensures Words(s) == []
  {
    BlankIs(s);
    BlanksSeparate(s, "");
    assert s + "" == s;
  }

  lemma {:induction false} WordsExist(s: string)
    ensures WordsAre(s, Words(s))
    decreases |s|
  {
    if OnlySpacing(s) {
      NoWords(s);
    } else {
      var before, word, rest := FindFirstWord(s);
      OneWord(s, before, word, rest);
      WordsExist(rest);
      hide Words, FirstWord;
      var ws := Words(s);
      assert ws[0] == word && ws[1..] == Words(rest);
      assert FirstWord(s, before, ws[0], rest) && WordsAre(rest, ws[1..]);
    }
  }

  lemma {:induction false} WordsAreWords(s: string, words: seq<string>)
    requires WordsAre(s, words)
    ensures Words(s) == words
    decreases |words|
  {
    if words == [] {
      NoWords(s);
    } else {
      var before: string, rest: string :| FirstWord(s, before, words[0], rest) && WordsAre(rest, words[1..]);
      OneWord(s, before, words[0], rest);
      WordsAreWords(rest, words[1..]);
      assert words == [words[0]] + words[1..];
    }
  }

  /** Splitting gives the words of a text. */
  lemma WordsIs(s: string, words: seq<string>)
    ensures Words(s) == words <==> WordsAre(s, words)
  {
    hide Words, WordsAre;
    WordsExist(s);
    if WordsAre(s, words) {
      WordsAreWords(s, words);
    }
  }
}
