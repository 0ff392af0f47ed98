/** Decimal numerals. */
module Numerals {
  import opened Options
  import opened Texts

  const MAX_U32: nat := 0xFFFF_FFFF
  const MAX_U64: nat := 0xFFFF_FFFF_FFFF_FFFF

  function DigitChar(d: nat): (c: char)
    requires d < 10
    ensures IsDigit(c) && (c as int) - ('0' as int) == d
  {
    (('0' as int) + d) as char
  }

  function DigitValue(c: char): (d: nat)
    requires IsDigit(c)
    ensures d < 10 && (forall k: nat :: k < 10 && DigitChar(k) == c ==> k == d)
  {
    c as int - '0' as int
  }

  function Decimal(n: nat): (s: string)
    ensures s != "" && forall c :: c in s ==> IsDigit(c)
  {
    if n < 10 then [DigitChar(n)] else Decimal(n / 10) + [DigitChar(n % 10)]
  }

  function ValueOf(digits: string): nat
    requires forall c :: c in digits ==> IsDigit(c)
  {
    if digits == "" then 0
    else
      var last := |digits| - 1;
      assert digits[last] in digits;
      10 * ValueOf(digits[..last]) + DigitValue(digits[last])
  }

  /** An unsigned number of limited size: an optional plus sign and at least one digit. */
  function ParseNumber(s: string, max: nat): Option<nat> {
    var digits := if s != "" && s[0] == '+' then s[1..] else s;
    if digits != "" && (forall c :: c in digits ==> IsDigit(c)) && ValueOf(digits) <= max then Some(ValueOf(digits))
    else None
  }

  lemma {:induction false} ValueOfDecimal(n: nat)
    ensures ValueOf(Decimal(n)) == n
  {
    if n >= 10 {
      ValueOfDecimal(n / 10);
      assert Decimal(n)[..|Decimal(n)| - 1] == Decimal(n / 10);
    }
  }

  lemma NumberOfDecimal(n: nat, max: nat)
    requires n <= max
    ensures ParseNumber(Decimal(n), max) == Some(n)
  {
    ValueOfDecimal(n);
    assert Decimal(n)[0] in Decimal(n);
  }

  // -- Tuples of numbers -----------------------------------------------------------------

  /** Missing numbers count as zero. */
  function Padded(t: seq<nat>, length: nat): seq<nat> {
    seq(length, i requires 0 <= i < length => if i < |t| then t[i] else 0)
  }

  function Longer(a: seq<nat>, b: seq<nat>): nat {
    if |a| < |b| then |b| else |a|
  }

  /** The number at a place; beyond the end there are zeros. */
  function At(ns: seq<nat>, i: nat): nat {
    if i < |ns| then ns[i] else 0
  }

  lemma PaddedAt(a: seq<nat>, length: nat)
    requires |a| <= length
    ensures forall i :: 0 <= i < length ==> Padded(a, length)[i] == At(a, i)
    ensures forall i: nat :: length <= i ==> At(a, i) == 0
  {
  }
}
