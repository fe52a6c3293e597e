/** Decimal rendering of integers, as Java's string concatenation of a `Long`
    produces it, and the matching parse. The service's error messages embed
    ids and limits this way. */
module Decimal {

  predicate IsDigit(c: char) {
    '0' <= c <= '9'
  }

  function DigitChar(d: nat): (c: char)
    requires d < 10
    ensures IsDigit(c)
  {
    ('0' as int + d) as char
  }

  function DigitValue(c: char): nat {
    if IsDigit(c) then c as int - '0' as int else 0
  }

  /** Decimal digits of `n`, most significant first, without leading zeros. */
  function NatToString(n: nat): (s: string)
    ensures |s| > 0
    ensures forall i :: 0 <= i < |s| ==> IsDigit(s[i])
    decreases n
  {
    if n < 10 then [DigitChar(n)] else NatToString(n / 10) + [DigitChar(n % 10)]
  }

  /** `Long.toString`: a minus sign before the digits of a negative value. */
  function IntToString(i: int): string {
    if i < 0 then "-" + NatToString(-i) else NatToString(i)
  }

  function StringToNat(s: string): nat
    decreases |s|
  {
    if s == [] then 0 else StringToNat(s[..|s| - 1]) * 10 + DigitValue(s[|s| - 1])
  }

  function StringToInt(s: string): int {
    if |s| > 0 && s[0] == '-' then -(StringToNat(s[1..]) as int) else StringToNat(s)
  }

  /** Reading back the digits of `n` gives `n`. */
  lemma {:induction false} NatRoundTrip(n: nat)
    ensures StringToNat(NatToString(n)) == n
    decreases n
  {
    var s := NatToString(n);
    if n < 10 {
      assert s[..|s| - 1] == [];
    } else {
      assert s[..|s| - 1] == NatToString(n / 10);
      assert s[|s| - 1] == DigitChar(n % 10);
      NatRoundTrip(n / 10);
    }
  }

  /** Reading back the rendering of `i` gives `i`, so distinct values render
      differently. */
  lemma IntRoundTrip(i: int)
    ensures StringToInt(IntToString(i)) == i
  {
    if i < 0 {
      var t := NatToString(-i);
      assert ("-" + t)[1..] == t;
      NatRoundTrip(-i);
    } else {
      var t := NatToString(i);
      assert IsDigit(t[0]);
      NatRoundTrip(i);
    }
  }
}
