/** Letters, blanks and words by their characters. */
module Letters {

  /** Equal, or one letter in its two cases. */
  predicate SameLetter(c: char, d: char) {
    || c == d
    || ('a' <= c <= 'z' && d as int + 32 == c as int)
    || ('a' <= d <= 'z' && c as int + 32 == d as int)
  }

  /** Equal up to the case of letters. */
  predicate SameLetters(a: string, b: string) {
    |a| == |b| && forall k :: 0 <= k < |a| ==> SameLetter(a[k], b[k])
  }

  /** Blank, tab, newline and the other separators of ASCII. */
  predicate Spacing(c: char) {
    c as int in {9, 10, 11, 12, 13, 28, 29, 30, 31, 32}
  }

  predicate OnlySpacing(s: string) {
    forall i :: 0 <= i < |s| ==> Spacing(s[i])
  }

  predicate NoSpacing(s: string) {
    forall i :: 0 <= i < |s| ==> !Spacing(s[i])
  }

  /** The text consists of these words with spacing around and between them. */
  ghost predicate WordsAre(s: string, words: seq<string>)
    decreases |words|
  {
    if words == [] then OnlySpacing(s)
    else exists before: string, rest: string :: FirstWord(s, before, words[0], rest) && WordsAre(rest, words[1..])
  }

  predicate FirstWord(s: string, before: string, word: string, rest: string) {
    && s == before + word + rest && OnlySpacing(before) && word != "" && NoSpacing(word)
    && (rest != "" ==> Spacing(rest[0]))
  }
}
