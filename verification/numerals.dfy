/**
 Decimal text for integers: Python's `str(n)` on an `int` and `int(s)` on a
 decimal literal, with the round trip between them.
 */
module Numerals {
  import opened Results
  import Text

  predicate IsDigit(c: char) {
    '0' <= c <= '9'
  }

  predicate AllDigits(s: string) {
    forall k :: 0 <= k < |s| ==> IsDigit(s[k])
  }

  function Digit(d: nat): (c: char)
    requires d < 10
    ensures IsDigit(c)
  {
    ('0' as int + d) as char
  }

  /** The number a string of decimal digits denotes (the empty string denotes 0). */
  function DigitsValue(s: string): nat
    requires AllDigits(s)
  {
    if s == [] then 0 else DigitsValue(s[..|s| - 1]) * 10 + ((s[|s| - 1] as int) - ('0' as int))
  }

  /** `str(n)` for `n >= 0`: its decimal digits, without leading zeros. */
  function NatToString(n: nat): (s: string)
    ensures |s| >= 1
    ensures AllDigits(s)
    ensures s[0] == '0' ==> n == 0 && s == "0"
    decreases n
  {
    if n < 10 then [Digit(n)] else NatToString(n / 10) + [Digit(n % 10)]
  }

  /** Reading back the digits `str(n)` writes gives `n`. */
  lemma {:induction false} NatToStringValue(n: nat)
    ensures DigitsValue(NatToString(n)) == n
    decreases n
  {
    if n >= 10 {
      var s := NatToString(n);
      assert s[..|s| - 1] == NatToString(n / 10);
      NatToStringValue(n / 10);
    }
  }

  /** `str(i)` for any integer. */
  function IntToString(i: int): (s: string)
    ensures |s| >= 1
    ensures i >= 0 <==> IsDigit(s[0])
    ensures i < 0 <==> s[0] == '-'
  {
    if i < 0 then "-" + NatToString(-i) else NatToString(i)
  }

  /** `int(s)` on a decimal literal: surrounding whitespace, an optional sign, then at least one digit. */
  function ParseInt(s: string): (r: Result<int>)
    ensures r.Err? ==> r.error == ValueError
    ensures r.Ok? <==>
              var t := Text.Strip(s);
              (|t| >= 1 && AllDigits(t)) || (|t| >= 2 && t[0] in "+-" && AllDigits(t[1..]))
    ensures r.Ok? && AllDigits(s) ==> r.value == DigitsValue(s)
  {
    var t := Text.Strip(s);
    if |t| >= 2 && (t[0] == '+' || t[0] == '-') && AllDigits(t[1..]) then
      var v: int := DigitsValue(t[1..]);
      Ok(if t[0] == '-' then -v else v)
    else if |t| >= 1 && AllDigits(t) then
      Ok(DigitsValue(t))
    else
      Err(ValueError)
  }

  /** A bare run of digits parses to the number it denotes. */
  lemma ParseDigits(s: string)
    requires |s| >= 1 && AllDigits(s)
    ensures ParseInt(s) == Ok(DigitsValue(s))
  {
    assert !Text.IsSpace(s[0]) && !Text.IsSpace(s[|s| - 1]);
    assert Text.Strip(s) == s;
  }

  /** `int("-" + str(n)) == -n`. */
  lemma ParseNegative(n: nat)
    ensures ParseInt("-" + NatToString(n)) == Ok(-(n as int))
  {
    var t := NatToString(n);
    var s := "-" + t;
    assert Text.Strip(s) == s by {
      assert s[|s| - 1] == t[|t| - 1] && IsDigit(t[|t| - 1]);
      StripUnchanged(s);
    }
    assert AllDigits(s[1..]) && DigitsValue(s[1..]) == n by {
      assert s[1..] == t;
      NatToStringValue(n);
    }
    ParseSigned(s);
  }

  /** Stripped text made of a minus sign and digits parses to the negated value of the digits. */
  lemma ParseSigned(s: string)
    requires |s| >= 2 && s[0] == '-' && AllDigits(s[1..]) && Text.Strip(s) == s
    ensures ParseInt(s) == Ok(-(DigitsValue(s[1..]) as int))
  {
  }

  /** Text with no whitespace at either end is its own strip. */
  lemma StripUnchanged(s: string)
    requires |s| >= 1 && !Text.IsSpace(s[0]) && !Text.IsSpace(s[|s| - 1])
    ensures Text.Strip(s) == s
  {
  }

  /** `int(str(n)) == n` for `n >= 0`. */
  lemma NatToStringParses(n: nat)
    ensures ParseInt(NatToString(n)) == Ok(n)
  {
    NatToStringValue(n);
    ParseDigits(NatToString(n));
  }

  /** `int(str(i)) == i`. */
  lemma IntToStringParses(i: int)
    ensures ParseInt(IntToString(i)) == Ok(i)
  {
    if i < 0 {
      ParseNegative(-i);
    } else {
      NatToStringParses(i);
    }
  }
}
