/** Decimal numerals as Python's str() and int() write and read them. */
module Decimals {
  import opened Results
  import opened Lines

  predicate IsDigit(c: char) {
    '0' <= c <= '9'
  }

  function Digit(d: nat): (c: char)
    requires d < 10
    ensures IsDigit(c)
  {
    ('0' as int + d) as char
  }

  function Decimal(n: nat): (s: string)
    ensures s != "" && forall i :: 0 <= i < |s| ==> IsDigit(s[i])
  {
    if n < 10 then [Digit(n)] else Decimal(n / 10) + [Digit(n % 10)]
  }

  /** The value of digits in which single underscores may stand between two digits. */
  function DigitsValue(s: string): Option<nat> {
    if s == "" || !IsDigit(s[|s| - 1]) then None
    else
      var d: nat := s[|s| - 1] as int - '0' as int;
      var rest := s[..|s| - 1];
      if rest == "" then Some(d)
      else
        match DigitsValue(if rest[|rest| - 1] == '_' then rest[..|rest| - 1] else rest)
        case None => None
        case Some(v) => Some(10 * v + d)
  }

  /** int(s): blanks around, a sign, digits; None where Python raises ValueError. */
  function ParseInt(s: string): Option<int> {
    var t := Strip(s);
    if t != "" && (t[0] == '+' || t[0] == '-') then
      match DigitsValue(t[1..])
      case None => None
      case Some(v) =>
        var i: int := if t[0] == '-' then 0 - v else v;
        Some(i)
    else
      match DigitsValue(t)
      case None => None
      case Some(v) => Some(v)
  }

  lemma {:induction false} DecimalValue(n: nat)
    ensures DigitsValue(Decimal(n)) == Some(n)
  {
    var s := Decimal(n);
    if n >= 10 {
      DecimalValue(n / 10);
      assert s[..|s| - 1] == Decimal(n / 10);
    }
  }

  /** A numeral is read back, whatever blanks surround it. */
  lemma NumeralIsRead(n: nat, s: string)
    requires Strip(s) == Decimal(n)
    ensures ParseInt(s) == Some(n)
  {
    DecimalValue(n);
    assert IsDigit(Strip(s)[0]);
    hide DigitsValue, Strip, Decimal;
  }

  lemma DecimalIsInjective(m: nat, n: nat)
    requires Decimal(m) == Decimal(n)
    ensures m == n
  {
    DecimalValue(m);
    DecimalValue(n);
  }

  lemma DecimalIsStripped(n: nat)
    ensures Strip(Decimal(n)) == Decimal(n) && OneLine(Decimal(n))
  {
    hide Decimal;
    StripIsStripped(Decimal(n));
  }
}
