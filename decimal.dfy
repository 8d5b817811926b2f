/**
 * How JavaScript renders an integer when it is concatenated to a string
 * (`hp + 'HP'`, `dp + ' DP'`), with a parser that inverts it, so that the
 * rendered labels can be shown to carry the number they were built from.
 */
module Decimal {
  import opened Wrappers

  predicate IsDigit(ch: char) { '0' <= ch <= '9' }

  predicate AllDigits(s: string) { forall k :: 0 <= k < |s| ==> IsDigit(s[k]) }

  function DigitChar(d: nat): (ch: char)
    requires d < 10
    ensures IsDigit(ch)
  {
    ('0' as int + d) as char
  }

  function DigitValue(ch: char): (d: nat)
    requires IsDigit(ch)
    ensures d < 10
  {
    ch as int - '0' as int
  }

  /** A digit string in the form JavaScript prints: non-empty, and no leading zero unless it is `0` itself. */
  predicate Canonical(s: string)
  {
    |s| >= 1 && AllDigits(s) && (|s| > 1 ==> s[0] != '0')
  }

  /** Decimal digits of `n`, most significant first, without leading zeros. */
  function NatToDecimal(n: nat): (s: string)
    ensures Canonical(s)
    ensures s[0] == '0' <==> n == 0
  {
    if n < 10 then [DigitChar(n)] else NatToDecimal(n / 10) + [DigitChar(n % 10)]
  }

  /** `String(i)` for an integer `i` (below 10^21 in magnitude in JavaScript). */
  function IntToDecimal(i: int): (s: string)
    ensures |s| >= 1
    ensures s[0] == '-' <==> i < 0
  {
    if i < 0 then "-" + NatToDecimal(-i) else NatToDecimal(i)
  }

  /** The value of a string of decimal digits. */
  function DigitsValue(s: string): nat
    requires AllDigits(s)
  {
    if s == [] then 0 else DigitsValue(s[..|s| - 1]) * 10 + DigitValue(s[|s| - 1])
  }

  /**
   * Reads an integer written as JavaScript prints one: canonical digits,
   * optionally after a minus sign that is never followed by `0`. Any other
   * text, `060` and `-0` included, gives `None`.
   */
  function ParseInt(s: string): Option<int>
  {
    if |s| >= 2 && s[0] == '-' && Canonical(s[1..]) && s[1] != '0' then Some(-(DigitsValue(s[1..]) as int))
    else if Canonical(s) then Some(DigitsValue(s))
    else None
  }

  lemma {:induction false} NatToDecimalValue(n: nat)
    ensures DigitsValue(NatToDecimal(n)) == n
  {
    var s := NatToDecimal(n);
    if n >= 10 {
      NatToDecimalValue(n / 10);
      assert s[..|s| - 1] == NatToDecimal(n / 10);
    }
  }

  /** Parsing the rendering of an integer gives back that integer. */
  lemma ParseIntToDecimal(i: int)
    ensures ParseInt(IntToDecimal(i)) == Some(i)
  {
    var s := IntToDecimal(i);
    if i < 0 {
      var d := NatToDecimal(-i);
      assert d[0] != '0';
      assert s == "-" + d && s[1..] == d && s[1] == d[0];
      NatToDecimalValue(-i);
    } else {
      assert s == NatToDecimal(i) && Canonical(s) && s[0] != '-';
      NatToDecimalValue(i);
    }
  }

  /** A digit string without a leading zero has a positive value. */
  lemma {:induction false} LeadingDigitPositive(s: string)
    requires AllDigits(s) && |s| >= 1 && s[0] != '0'
    ensures DigitsValue(s) >= 1
  {
    if |s| > 1 {
      LeadingDigitPositive(s[..|s| - 1]);
    }
  }

  /** A canonical digit string is the rendering of its own value. */
  lemma {:induction false} DecimalOfValue(s: string)
    requires Canonical(s)
    ensures NatToDecimal(DigitsValue(s)) == s
  {
    var v := DigitsValue(s);
    var last := s[|s| - 1];
    assert DigitChar(DigitValue(last)) == last;
    if |s| > 1 {
      var t := s[..|s| - 1];
      LeadingDigitPositive(t);
      DecimalOfValue(t);
      assert v / 10 == DigitsValue(t) && v % 10 == DigitValue(last);
      assert s == t + [last];
    }
  }

  /** Whatever ParseInt accepts is exactly the rendering of the integer it reads. */
  lemma ParseIntExact(s: string, i: int)
    requires ParseInt(s) == Some(i)
    ensures s == IntToDecimal(i)
  {
    if |s| >= 2 && s[0] == '-' && Canonical(s[1..]) && s[1] != '0' {
      LeadingDigitPositive(s[1..]);
      DecimalOfValue(s[1..]);
      assert s == "-" + s[1..];
    } else {
      DecimalOfValue(s);
    }
  }

  /** `n + unit`: the label JavaScript builds by concatenating a number and a unit. */
  function WithUnit(n: int, unit: string): string
  {
    IntToDecimal(n) + unit
  }

  /** Reads back the number of a label that ends in `unit`. */
  function ParseWithUnit(s: string, unit: string): Option<int>
  {
    if |s| >= |unit| && s[|s| - |unit|..] == unit then ParseInt(s[..|s| - |unit|]) else None
  }

  /** A label keeps its number: it parses back to the integer it was built from. */
  lemma WithUnitRoundTrip(n: int, unit: string)
    ensures ParseWithUnit(WithUnit(n, unit), unit) == Some(n)
  {
    var s := WithUnit(n, unit);
    assert s[..|s| - |unit|] == IntToDecimal(n);
    assert s[|s| - |unit|..] == unit;
    ParseIntToDecimal(n);
  }

  /** A text parses as a label of `n` if and only if it is the label of `n`. */
  lemma WithUnitExact(s: string, n: int, unit: string)
    ensures ParseWithUnit(s, unit) == Some(n) <==> s == WithUnit(n, unit)
  {
    if ParseWithUnit(s, unit) == Some(n) {
      var digits := s[..|s| - |unit|];
      ParseIntExact(digits, n);
      assert s == digits + s[|s| - |unit|..];
    }
    if s == WithUnit(n, unit) {
      WithUnitRoundTrip(n, unit);
    }
  }

  /** The label of `n` is the only text that parses as a label of `n`. */
  lemma WithUnitUnique(n: int, unit: string)
    ensures forall t :: ParseWithUnit(t, unit) == Some(n) <==> t == WithUnit(n, unit)
  {
    forall t ensures ParseWithUnit(t, unit) == Some(n) <==> t == WithUnit(n, unit) {
      WithUnitExact(t, n, unit);
    }
  }

  /** Two labels with the same unit are equal only when their numbers are. */
  lemma WithUnitInjective(m: int, n: int, unit: string)
    requires WithUnit(m, unit) == WithUnit(n, unit)
    ensures m == n
  {
    WithUnitRoundTrip(m, unit);
    WithUnitRoundTrip(n, unit);
  }
}
