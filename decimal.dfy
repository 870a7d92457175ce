/**
 * Decimal rendering of integers, as Kotlin's `toString()` produces it for the integer key of a
 * dictionary, and the parse that reads such a string back.
 */
module Decimal {
  import opened Wrappers

  function DigitChar(d: nat): char
    requires d < 10
  {
    ('0' as int + d) as char
  }

  function DigitValue(c: char): Option<nat>
  {
    if '0' <= c <= '9' then Some(c as int - '0' as int) else None
  }

  /** The shortest decimal digits of `n`, most significant first. */
  function NatToString(n: nat): (s: string)
    ensures |s| > 0 && s[0] != '-'
    decreases n
  {
    if n < 10 then [DigitChar(n)] else NatToString(n / 10) + [DigitChar(n % 10)]
  }

  /** `Int.toString()`: a minus sign for negative numbers, then the digits of the magnitude. */
  function IntToString(i: int): string
  {
    if i < 0 then "-" + NatToString(-i) else NatToString(i)
  }

  /** The number that a (possibly empty) string of decimal digits denotes, or None on a non-digit. */
  function ParseDigits(s: string): Option<nat>
    decreases |s|
  {
    if s == [] then Some(0)
    else
      match ParseDigits(s[..|s| - 1])
      case None => None
      case Some(p) =>
        match DigitValue(s[|s| - 1])
        case None => None
        case Some(d) => Some(p * 10 + d)
  }

  /** Reads an optional minus sign followed by at least one decimal digit. */
  function ParseInt(s: string): Option<int>
  {
    if s == [] then None
    else if s[0] == '-' then
      if |s| == 1 then None
      else
        match ParseDigits(s[1..])
        case None => None
        case Some(n) => Some(-(n as int))
    else
      ParseDigits(s)
  }

  lemma {:induction false} ParseNatToString(n: nat)
    ensures ParseDigits(NatToString(n)) == Some(n)
    decreases n
  {
    var s := NatToString(n);
    if n < 10 {
      assert s[..|s| - 1] == [];
    } else {
      ParseNatToString(n / 10);
      assert s[..|s| - 1] == NatToString(n / 10);
    }
  }

  /** Parsing undoes rendering, for every integer. */
  lemma ParseIntToString(i: int)
    ensures ParseInt(IntToString(i)) == Some(i)
  {
    var s := IntToString(i);
    if i < 0 {
      assert s[0] == '-' && |s| > 1 && s[1..] == NatToString(-i);
      ParseNatToString(-i);
    } else {
      assert s != [] && s[0] != '-';
      ParseNatToString(i);
    }
  }

  /** Distinct integers render as distinct strings. */
  lemma IntToStringInjective(a: int, b: int)
    requires IntToString(a) == IntToString(b)
    ensures a == b
  {
    ParseIntToString(a);
    ParseIntToString(b);
  }
}
