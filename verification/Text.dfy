/** The small pieces of Python string formatting the engine relies on:
    `str()` of integers and booleans, and `str.join`. */
module Text {
  import opened Wrappers

  function DigitChar(d: nat): (c: char)
    requires d < 10
    ensures '0' <= c <= '9'
  {
    ('0' as int + d) as char
  }

  /** Decimal digits of a natural number, most significant first. */
  function Decimal(n: nat): (s: string)
    ensures |s| >= 1
    ensures forall i :: 0 <= i < |s| ==> '0' <= s[i] <= '9'
    decreases n
  {
    if n < 10 then [DigitChar(n)] else Decimal(n / 10) + [DigitChar(n % 10)]
  }

  /** `str(i)` for a Python int. */
  function IntText(i: int): string
  {
    if i < 0 then "-" + Decimal(-i) else Decimal(i)
  }

  /** `str(b)` for a Python bool. */
  function BoolText(b: bool): string
  {
    if b then "True" else "False"
  }

  /** `sep.join(parts)`. */
  function Join(sep: string, parts: seq<string>): string
    decreases |parts|
  {
    if |parts| == 0 then ""
    else if |parts| == 1 then parts[0]
    else parts[0] + sep + Join(sep, parts[1..])
  }

  predicate IsDigit(c: char)
  {
    '0' <= c <= '9'
  }

  function DigitValue(c: char): nat
    requires IsDigit(c)
  {
    c as int - '0' as int
  }

  lemma DigitValueOfChar(d: nat)
    requires d < 10
    ensures DigitValue(DigitChar(d)) == d
  {
  }

  predicate AllDigits(s: string)
  {
    forall i :: 0 <= i < |s| ==> IsDigit(s[i])
  }

  /** `int(s)` for a non-empty string of decimal digits. */
  function ParseDecimal(s: string): nat
    requires |s| >= 1 && AllDigits(s)
    decreases |s|
  {
    if |s| == 1 then DigitValue(s[0])
    else 10 * ParseDecimal(s[..|s| - 1]) + DigitValue(s[|s| - 1])
  }

  /** Reading the digits back gives the number. */
  lemma {:induction false} ParseDecimalOfDecimal(n: nat)
    ensures ParseDecimal(Decimal(n)) == n
    decreases n
  {
    if n < 10 {
      DigitValueOfChar(n);
    } else {
      var s := Decimal(n);
      assert s == Decimal(n / 10) + [DigitChar(n % 10)];
      assert s[..|s| - 1] == Decimal(n / 10);
      ParseDecimalOfDecimal(n / 10);
      DigitValueOfChar(n % 10);
    }
  }

  /** `int(s)` for an optionally signed string of decimal digits, and
      nothing for any other string. */
  function ParseInt(s: string): Option<int>
  {
    if |s| >= 2 && s[0] == '-' && AllDigits(s[1..]) then Some(0 - ParseDecimal(s[1..]))
    else if |s| >= 1 && AllDigits(s) then Some(ParseDecimal(s))
    else None
  }

  lemma ParseIntNegative(n: nat)
    requires n > 0
    ensures ParseInt("-" + Decimal(n)) == Some(0 - n)
  {
    var d := Decimal(n);
    assert ("-" + d)[1..] == d;
    ParseDecimalOfDecimal(n);
  }

  lemma ParseIntNatural(n: nat)
    ensures ParseInt(Decimal(n)) == Some(n)
  {
    assert IsDigit(Decimal(n)[0]);
    ParseDecimalOfDecimal(n);
  }

  /** `int(str(i)) == i`. */
  lemma ParseIntOfIntText(i: int)
    ensures ParseInt(IntText(i)) == Some(i)
  {
    if i < 0 {
      ParseIntNegative(-i);
    } else {
      ParseIntNatural(i);
    }
  }
}
