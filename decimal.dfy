/** Decimal amounts in tenths of an inch: how the mock weather source rounds a
    random draw to one decimal place, and how a JavaScript number with one
    decimal place is written into a job's notes. */
module Decimal {
  import opened Results

  predicate IsDigit(ch: char)
  {
    '0' <= ch <= '9'
  }

  predicate AllDigits(s: string)
  {
    forall k :: 0 <= k < |s| ==> IsDigit(s[k])
  }

  function DigitChar(d: int): (ch: char)
    requires 0 <= d < 10
    ensures IsDigit(ch) && ch as int - '0' as int == d
  {
    (d + '0' as int) as char
  }

  /** Decimal digits of `n`, most significant first, without leading zeros. */
  function NatToString(n: nat): (s: string)
    ensures |s| >= 1 && AllDigits(s)
    ensures n >= 10 ==> s[0] != '0'
    decreases n
  {
    if n < 10 then [DigitChar(n)] else NatToString(n / 10) + [DigitChar(n % 10)]
  }

  function StringToNat(s: string): nat
    requires AllDigits(s)
  {
    if s == [] then 0
    else StringToNat(s[..|s| - 1]) * 10 + (s[|s| - 1] as int - '0' as int)
  }

  lemma {:induction false} NatRoundTrip(n: nat)
    ensures StringToNat(NatToString(n)) == n
    decreases n
  {
    if n >= 10 {
      var s := NatToString(n);
      assert s[..|s| - 1] == NatToString(n / 10);
      NatRoundTrip(n / 10);
    }
  }

  /** `String(t / 10)` for an integer count `t` of tenths: the integer part,
      then `.d` only if the tenths digit is not zero, and a leading `-` below zero. */
  function FormatTenths(t: int): (s: string)
    ensures forall k :: 0 <= k < |s| ==> IsDigit(s[k]) || s[k] == '.' || s[k] == '-'
  {
    var a := if t < 0 then -t else t;
    var body := NatToString(a / 10) + (if a % 10 == 0 then "" else "." + [DigitChar(a % 10)]);
    if t < 0 then "-" + body else body
  }

  function ParseUnsignedTenths(s: string): Option<nat>
  {
    if |s| >= 3 && s[|s| - 2] == '.' && AllDigits(s[..|s| - 2]) && IsDigit(s[|s| - 1]) then
      Some(StringToNat(s[..|s| - 2]) * 10 + (s[|s| - 1] as int - '0' as int))
    else if |s| >= 1 && AllDigits(s) then
      Some(StringToNat(s) * 10)
    else
      None
  }

  /** Reads back a number written with at most one decimal place, in tenths. */
  function ParseTenths(s: string): Option<int>
  {
    if |s| >= 1 && s[0] == '-' then
      match ParseUnsignedTenths(s[1..])
      case Some(a) => Some(0 - a as int)
      case None => None
    else
      ParseUnsignedTenths(s)
  }

  /** The text written for a snowfall or a threshold determines the amount. */
  lemma FormatTenthsRoundTrip(t: int)
    ensures ParseTenths(FormatTenths(t)) == Some(t)
  {
    var a := if t < 0 then -t else t;
    var digits := NatToString(a / 10);
    var body := digits + (if a % 10 == 0 then "" else "." + [DigitChar(a % 10)]);
    NatRoundTrip(a / 10);
    if a % 10 == 0 {
      assert body == digits;
      assert |body| >= 3 ==> body[|body| - 2] != '.' by {
        if |body| >= 3 { assert IsDigit(body[|body| - 2]); }
      }
      assert ParseUnsignedTenths(body) == Some(a);
    } else {
      assert body[..|body| - 2] == digits;
      assert ParseUnsignedTenths(body) == Some(a);
    }
    if t < 0 {
      assert ("-" + body)[1..] == body;
    } else {
      assert body[0] != '-' by { assert IsDigit(digits[0]); }
    }
  }

  /** `Math.round(draw * 8 * 10)`: a draw of `Math.random()` scaled to at most
      eight inches and rounded to the nearest tenth, halves going up. */
  function SnowfallTenths(draw: real): (t: int)
    ensures t as real - 0.5 <= draw * 80.0 < t as real + 0.5
    ensures 0.0 <= draw < 1.0 ==> 0 <= t <= 80
  {
    (draw * 80.0 + 0.5).Floor
  }
}
