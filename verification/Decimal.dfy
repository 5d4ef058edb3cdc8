/** Decimal text of integers, as written by the C++ library's to_string. */
module Decimal {
  import opened Wrappers

  predicate IsDigit(c: char) {
    '0' <= c <= '9'
  }

  ghost predicate AllDigits(s: string) {
    forall i :: 0 <= i < |s| ==> IsDigit(s[i])
  }

  function DigitValue(c: char): (d: nat)
    requires IsDigit(c)
    ensures d < 10
  {
    c as int - '0' as int
  }

  function DigitChar(d: nat): (c: char)
    requires d < 10
    ensures IsDigit(c) && DigitValue(c) == d
  {
    ('0' as int + d) as char
  }

  function PrintNat(n: nat): (s: string)
    ensures |s| > 0 && AllDigits(s)
    ensures |s| > 1 ==> s[0] != '0'
  {
    if n < 10 then [DigitChar(n)] else PrintNat(n / 10) + [DigitChar(n % 10)]
  }

  function Print(v: int): string {
    if v < 0 then "-" + PrintNat(-v) else PrintNat(v)
  }

  /** The value of a run of digits. */
  function DigitsValue(s: string): (n: nat)
    requires AllDigits(s)
  {
    if |s| == 0 then 0 else DigitsValue(s[..|s| - 1]) * 10 + DigitValue(s[|s| - 1])
  }

  /** The number an optionally signed run of digits denotes; None for other text. */
  function Parse(s: string): Option<int> {
    var digits := if |s| > 0 && s[0] == '-' then s[1..] else s;
    if |digits| == 0 || exists i :: 0 <= i < |digits| && !IsDigit(digits[i]) then None
    else if digits == s then Some(DigitsValue(digits))
    else Some(0 - DigitsValue(digits))
  }

  lemma {:induction false} PrintedValue(n: nat)
    ensures DigitsValue(PrintNat(n)) == n
  {
    var s := PrintNat(n);
    if n < 10 {
      assert s[..0] == "";
    } else {
      PrintedValue(n / 10);
      assert s[..|s| - 1] == PrintNat(n / 10);
    }
  }

  /** Digits with no superfluous leading zero are exactly what PrintNat writes. */
  lemma {:induction false} CanonicalDigits(s: string)
    requires |s| > 0 && AllDigits(s)
    requires |s| > 1 ==> s[0] != '0'
    ensures PrintNat(DigitsValue(s)) == s
    ensures |s| > 1 ==> DigitsValue(s) >= 10
  {
    var init, last := s[..|s| - 1], DigitValue(s[|s| - 1]);
    assert DigitChar(last) == s[|s| - 1];
    if |s| == 1 {
      assert init == "";
      assert s == [s[0]];
    } else {
      CanonicalDigits(init);
      if |init| == 1 {
        SingleDigit(init);
      }
      assert DigitsValue(s) == DigitsValue(init) * 10 + last;
      hide DigitsValue;
      TensAndOnes(DigitsValue(init), last);
      assert s == init + [s[|s| - 1]];
    }
  }

  lemma TensAndOnes(tens: nat, ones: nat)
    requires ones < 10
    ensures (tens * 10 + ones) / 10 == tens && (tens * 10 + ones) % 10 == ones
  {
  }

  lemma SingleDigit(s: string)
    requires |s| == 1 && IsDigit(s[0])
    ensures DigitsValue(s) == DigitValue(s[0])
  {
    assert s[..0] == "";
  }

  lemma PrintThenParse(v: int)
    ensures Parse(Print(v)) == Some(v)
  {
    PrintedValue(if v < 0 then -v else v);
    if v < 0 {
      assert Print(v)[1..] == PrintNat(-v);
    }
  }
}
