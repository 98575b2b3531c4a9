// Decimal numerals: strconv.Itoa, strconv.Atoi and big.Int.SetString in base 10.
module Decimal {
  import opened Wrappers

  const MAX_INT64: int := 0x7fff_ffff_ffff_ffff
  const TWO_64: int := 0x1_0000_0000_0000_0000

  // Two's complement on 64 bits.
  function ToSigned64(n: nat): int {
    var low := n % TWO_64;
    if low >= TWO_64 / 2 then low - TWO_64 else low
  }

  lemma SignedAgain(n: int)
    requires -TWO_64 / 2 <= n < TWO_64 / 2
    ensures ToSigned64(if n < 0 then n + TWO_64 else n) == n
  {
  }

  predicate IsDigit(c: char) { '0' <= c <= '9' }

  predicate AllDigits(s: string) { forall i | 0 <= i < |s| :: IsDigit(s[i]) }

  function DigitsValue(s: string): nat
    requires AllDigits(s)
  {
    if s == "" then 0
    else 10 * DigitsValue(s[..|s| - 1]) + (s[|s| - 1] as int - '0' as int)
  }

  // An optional sign followed by at least one digit; nothing else is a number.
  function ParseInteger(s: string): Option<int> {
    var negative := s != "" && s[0] == '-';
    var digits := if negative || (s != "" && s[0] == '+') then s[1..] else s;
    if digits == "" || !AllDigits(digits) then None
    else
      var value: int := DigitsValue(digits);
      Some(if negative then -value else value)
  }

  // Atoi and ParseInt(_, 10, 64) report an error outside the signed 64-bit range.
  function ParseInt64(s: string): Option<int> {
    match ParseInteger(s)
    case None => None
    case Some(n) => if -MAX_INT64 - 1 <= n <= MAX_INT64 then Some(n) else None
  }

  function Digit(d: nat): char
    requires d < 10
  {
    ('0' as int + d) as char
  }

  function NatText(n: nat): (s: string)
    ensures s != "" && AllDigits(s)
    ensures DigitsValue(s) == n
  {
    if n < 10 then
      assert [Digit(n)][..0] == "";
      [Digit(n)]
    else
      var s := NatText(n / 10) + [Digit(n % 10)];
      assert s[..|s| - 1] == NatText(n / 10);
      s
  }

  function IntText(n: int): string {
    if n < 0 then "-" + NatText(-n) else NatText(n)
  }

  lemma ParseIntText(n: int)
    ensures ParseInteger(IntText(n)) == Some(n)
    ensures -MAX_INT64 - 1 <= n <= MAX_INT64 <==> ParseInt64(IntText(n)) == Some(n)
  {
    if n < 0 {
      assert IntText(n)[1..] == NatText(-n);
    } else {
      assert IsDigit(NatText(n)[0]);
    }
  }
}
