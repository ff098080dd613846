/**
 * Base-10 integers as text: Python's `str(n)` / `"{}".format(n)` for an
 * integer, and the reading of a field by `int(...)` on the host and
 * `float(...)` on the device, restricted to an optional sign followed by
 * ASCII digits.
 */
module Decimal {
  import opened Wrappers

  predicate IsDigit(c: char)
  {
    '0' <= c <= '9'
  }

  predicate AllDigits(s: string)
  {
    forall k :: 0 <= k < |s| ==> IsDigit(s[k])
  }

  function DigitChar(d: nat): (c: char)
    requires d < 10
    ensures IsDigit(c) && c as int - '0' as int == d
  {
    ('0' as int + d) as char
  }

  function DigitValue(c: char): nat
    requires IsDigit(c)
  {
    c as int - '0' as int
  }

  /** The value of a run of digits, most significant first. */
  function DigitsValue(s: string): nat
    requires AllDigits(s)
  {
    if s == [] then 0 else DigitsValue(s[..|s| - 1]) * 10 + DigitValue(s[|s| - 1])
  }

  /** `str(n)` for a natural number: its shortest decimal spelling. */
  function NatToDecimal(n: nat): (s: string)
    ensures |s| >= 1 && AllDigits(s)
    ensures |s| > 1 ==> s[0] != '0'
  {
    if n < 10 then [DigitChar(n)] else NatToDecimal(n / 10) + [DigitChar(n % 10)]
  }

  /** `str(i)` for any integer: a minus sign in front of negative values. */
  function IntToDecimal(i: int): (s: string)
    ensures |s| >= 1
    ensures s[0] == '-' <==> i < 0
    ensures '|' !in s && '\n' !in s
    ensures forall k :: 0 <= k < |s| ==> s[k] == '-' || IsDigit(s[k])
  {
    if i < 0 then "-" + NatToDecimal(-i) else NatToDecimal(i)
  }

  /** Reading a numeric field: an optional `+` or `-` and at least one
      digit; anything else is the `ValueError` path (`None`). */
  function ParseInt(s: string): (r: Option<int>)
    ensures r.Some? ==> |s| >= 1
  {
    if |s| > 0 && (s[0] == '-' || s[0] == '+') then
      var digits := s[1..];
      if |digits| > 0 && AllDigits(digits) then
        var magnitude: int := DigitsValue(digits);
        Some(if s[0] == '-' then -magnitude else magnitude)
      else None
    else if |s| > 0 && AllDigits(s) then Some(DigitsValue(s))
    else None
  }

  /** Reading back a spelled-out natural number gives the number. */
  lemma {:induction false} DigitsValueOfDecimal(n: nat)
    ensures DigitsValue(NatToDecimal(n)) == n
  {
    if n >= 10 {
      DigitsValueOfDecimal(n / 10);
      var s := NatToDecimal(n);
      assert s[..|s| - 1] == NatToDecimal(n / 10);
    }
  }

  /** Round trip of the numeric fields of a status line: every integer the
      host writes is read back as the same integer. */
  lemma ParseIntOfDecimal(i: int)
    ensures ParseInt(IntToDecimal(i)) == Some(i)
  {
    var s := IntToDecimal(i);
    if i < 0 {
      var digits := NatToDecimal(-i);
      DigitsValueOfDecimal(-i);
      assert s == "-" + digits;
      assert s[0] == '-' && s[1..] == digits;
      assert |digits| > 0 && AllDigits(digits);
    } else {
      DigitsValueOfDecimal(i);
      assert s == NatToDecimal(i);
      assert s[0] != '-' && s[0] != '+';
    }
  }

  /** A text without a single digit is never read as a number. */
  lemma ParseIntNeedsDigit(s: string)
    requires forall k :: 0 <= k < |s| ==> !IsDigit(s[k])
    ensures ParseInt(s) == None
  {
    if |s| > 0 && (s[0] == '-' || s[0] == '+') && |s| > 1 {
      assert !IsDigit(s[1..][0]);
    } else if |s| > 0 {
      assert !IsDigit(s[0]);
    }
  }
}
