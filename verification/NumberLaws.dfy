/** Which texts are integers, and which integer each is, by places. */
module NumberLaws {
  import opened Results
  import opened Lines
  import opened Decimals

  function Power(n: nat): nat {
    if n == 0 then 1 else 10 * Power(n - 1)
  }

  predicate IsFigure(c: char) {
    '0' <= c <= '9'
  }

  /** The number that digits write: each counts for its place. */
  function Places(s: string): int {
    if s == "" then 0 else (s[0] as int - '0' as int) * Power(|s| - 1) + Places(s[1..])
  }

  /** Digits, with single underscores between them. */
  predicate Grouped(s: string) {
    && s != "" && IsFigure(s[0]) && IsFigure(s[|s| - 1])
    && (forall i :: 0 <= i < |s| ==> IsFigure(s[i]) || s[i] == '_')
    && forall i :: 0 <= i < |s| - 1 ==> IsFigure(s[i]) || IsFigure(s[i + 1])
  }

  function Ungrouped(s: string): string {
    if s == "" then ""
    else Ungrouped(s[..|s| - 1]) + (if s[|s| - 1] == '_' then "" else [s[|s| - 1]])
  }

  /** What stands before the last digit, without the underscore next to it. */
  function Head(s: string): string
    requires |s| >= 2
  {
    if s[|s| - 2] == '_' then s[..|s| - 2] else s[..|s| - 1]
  }

  lemma {:induction false} PlacesSnoc(s: string, c: char)
    ensures Places(s + [c]) == 10 * Places(s) + (c as int - '0' as int)
  {
    var t := s + [c];
    if s == "" {
      assert t[1..] == "" && Power(0) == 1;
    } else {
      assert t[0] == s[0] && t[1..] == s[1..] + [c];
      PlacesSnoc(s[1..], c);
      assert Power(|s|) == 10 * Power(|s| - 1);
      Distribute(s[0] as int - '0' as int, Power(|s| - 1));
    }
  }

  lemma Distribute(d: int, p: int)
    ensures d * (10 * p) == 10 * (d * p)
  {
  }

  lemma UngroupedHead(s: string)
    requires |s| >= 2 && IsFigure(s[|s| - 1])
    ensures Ungrouped(s) == Ungrouped(Head(s)) + [s[|s| - 1]]
  {
    var init := s[..|s| - 1];
    assert s[|s| - 1] != '_' && init[|init| - 1] == s[|s| - 2];
    if s[|s| - 2] == '_' {
      assert init[..|init| - 1] == Head(s);
      assert Ungrouped(init) == Ungrouped(Head(s)) + "";
    }
  }

  lemma GroupedLonger(s: string)
    requires |s| >= 2 && IsFigure(s[|s| - 1]) && Grouped(Head(s))
    ensures Grouped(s)
  {
    var head := Head(s);
    assert forall i :: 0 <= i < |head| ==> head[i] == s[i];
    assert head[0] == s[0] && head[|head| - 1] == s[|head| - 1];
    hide IsFigure;
    forall i | 0 <= i < |s| - 1
      ensures IsFigure(s[i]) || IsFigure(s[i + 1])
    {
      if i < |head| - 1 {
        assert IsFigure(head[i]) || IsFigure(head[i + 1]);
      }
    }
  }

  lemma GroupedShorter(s: string)
    requires |s| >= 2 && Grouped(s)
    ensures Grouped(Head(s))
  {
    var head := Head(s);
    assert forall i :: 0 <= i < |head| ==> head[i] == s[i];
    var k := |s| - 2;
    assert IsFigure(s[k]) || s[k] == '_';
    assert k > 0 ==> IsFigure(s[k - 1]) || IsFigure(s[k - 1 + 1]);
    assert !IsFigure('_');
    assert head != "" ==> head[0] == s[0] && head[|head| - 1] == s[|head| - 1];
    hide IsFigure;
    forall i | 0 <= i < |head| - 1
      ensures IsFigure(head[i]) || IsFigure(head[i + 1])
    {
      assert IsFigure(s[i]) || IsFigure(s[i + 1]);
    }
  }

  lemma DigitsStep(s: string)
    requires |s| >= 2
    ensures DigitsValue(s)
            == (if !IsFigure(s[|s| - 1]) || DigitsValue(Head(s)).None? then None
                else Some(10 * DigitsValue(Head(s)).value + (s[|s| - 1] as int - '0' as int)))
  {
    var rest := s[..|s| - 1];
    assert rest[|rest| - 1] == s[|s| - 2] && rest[..|rest| - 1] == s[..|s| - 2];
  }

  /** Digits are read exactly if they are grouped by single underscores at most, as the number they write. */
  lemma {:induction false} DigitsAre(s: string, v: int)
    ensures (DigitsValue(s).Some? && DigitsValue(s).value == v) <==> Grouped(s) && v == Places(Ungrouped(s))
    decreases |s|
  {
    if |s| < 2 {
      OneDigit(s, v);
    } else {
      hide Grouped, Ungrouped, DigitsValue, Head, Places, IsFigure;
      var c := s[|s| - 1];
      DigitsStep(s);
      LastIsFigure(s);
      if IsFigure(c) {
        UngroupedHead(s);
        PlacesSnoc(Ungrouped(Head(s)), c);
        DigitsAre(Head(s), Places(Ungrouped(Head(s))));
        if DigitsValue(Head(s)).Some? {
          DigitsAre(Head(s), DigitsValue(Head(s)).value);
        }
        if Grouped(s) {
          GroupedShorter(s);
        }
        if Grouped(Head(s)) {
          GroupedLonger(s);
        }
      }
    }
  }

  lemma LastIsFigure(s: string)
    ensures Grouped(s) ==> s != "" && IsFigure(s[|s| - 1])
    ensures |s| >= 2 ==> |Head(s)| < |s|
  {
  }

  lemma OneDigit(s: string, v: int)
    requires |s| < 2
    ensures (DigitsValue(s).Some? && DigitsValue(s).value == v) <==> Grouped(s) && v == Places(Ungrouped(s))
  {
    if s != "" {
      assert s[..0] == "" && s[1..] == "";
      assert Ungrouped(s) == "" + (if s[0] == '_' then "" else [s[0]]);
      assert Power(0) == 1;
      if IsFigure(s[0]) {
        assert Ungrouped(s) == s;
      }
    }
  }

  /** A text that may have a sign is the integer of its digits. */
  ghost predicate Writes(t: string, n: int) {
    || (Grouped(t) && n == Places(Ungrouped(t)))
    || (t != "" && t[0] == '+' && Grouped(t[1..]) && n == Places(Ungrouped(t[1..])))
    || (t != "" && t[0] == '-' && Grouped(t[1..]) && n == -Places(Ungrouped(t[1..])))
  }

  /** An integer is read from exactly the texts that write it, blanks around them aside. */
  lemma IntegerIs(s: string, n: int)
    ensures ParseInt(s) == Some(n) <==> Writes(Strip(s), n)
  {
    var t := Strip(s);
    hide Strip, Ungrouped, DigitsValue, Places;
    Unsigned(t);
    DigitsAre(t, n);
    if t != "" {
      DigitsAre(t[1..], n);
      DigitsAre(t[1..], -n);
    }
    hide Grouped;
  }

  lemma StrippedIntegerIs(s: string, n: int)
    ensures ParseInt(Strip(s)) == Some(n) <==> Writes(Strip(s), n)
  {
    hide Writes;
    StripIsStripped(s);
    StripIsStripped(Strip(s));
    IntegerIs(Strip(s), n);
  }

  lemma Unsigned(t: string)
    ensures Grouped(t) ==> t != "" && t[0] != '+' && t[0] != '-'
  {
  }
}
