/** Decimal numerals. */
module Numerals {
  import opened Options

  function Digit(d: nat): char
    requires d < 10
  {
    "0123456789"[d]
  }

  predicate IsDigit(c: char) {
    '0' <= c <= '9'
  }

  function Decimal(n: nat): (s: string)
    ensures |s| > 0 && forall k | 0 <= k < |s| :: IsDigit(s[k])
  {
    if n < 10 then [Digit(n)] else Decimal(n / 10) + [Digit(n % 10)]
  }

  /** Reading a numeral back. */
  function Value(s: string): nat {
    if s == [] then 0 else Value(s[..|s| - 1]) * 10 + DigitValue(s[|s| - 1])
  }

  function DigitValue(c: char): nat {
    if IsDigit(c) then (c - '0') as int else 0
  }

  lemma {:induction false} DecimalValue(n: nat)
    ensures Value(Decimal(n)) == n
  {
    if n < 10 {
      assert Decimal(n)[..0] == [];
    } else {
      DecimalValue(n / 10);
      assert Decimal(n)[..|Decimal(n)| - 1] == Decimal(n / 10);
    }
  }

  const INT_MIN := -0x8000_0000
  const INT_MAX := 0x7FFF_FFFF

  function PrintInt(n: int): string {
    if n < 0 then "-" + Decimal(-n) else Decimal(n)
  }

  predicate AllDigits(s: string) {
    s != "" && forall k | 0 <= k < |s| :: IsDigit(s[k])
  }

  /** toIntOrNull: a sign, digits, and a value that fits 32 bits. */
  function ParseInt(s: string): Option<int> {
    var signed := s != "" && (s[0] == '-' || s[0] == '+');
    var digits := if signed then s[1..] else s;
    if !AllDigits(digits) then None
    else
      var v: int := if signed && s[0] == '-' then -(Value(digits) as int) else Value(digits);
      if INT_MIN <= v <= INT_MAX then Some(v) else None
  }

  lemma {:induction false} ParseDigits(digits: string)
    requires AllDigits(digits)
    ensures Value(digits) <= INT_MAX ==> ParseInt(digits) == Some(Value(digits))
    ensures -(Value(digits) as int) >= INT_MIN ==> ParseInt("-" + digits) == Some(-(Value(digits) as int))
  {
    assert IsDigit(digits[0]);
    assert ("-" + digits)[1..] == digits;
  }

  lemma {:induction false} ParsePrint(n: int)
    requires INT_MIN <= n <= INT_MAX
    ensures ParseInt(PrintInt(n)) == Some(n)
    ensures forall k | 0 <= k < |PrintInt(n)| :: IsDigit(PrintInt(n)[k]) || PrintInt(n)[k] == '-'
  {
    var m := if n < 0 then -n else n;
    DecimalValue(m);
    ParseDigits(Decimal(m));
  }
}
