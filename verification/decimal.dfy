/**
  Decimal text of arbitrary-precision integers, as the agent keeps `totalValueMoved`:
  a string read with `BigInt(s)` and written back with `.toString()`.
*/
module Decimal {
  import opened Wrappers

  predicate IsDigit(c: char)
  {
    '0' <= c <= '9'
  }

  predicate AllDigits(s: string)
  {
    forall i :: 0 <= i < |s| ==> IsDigit(s[i])
  }

  function DigitValue(c: char): (d: nat)
    requires IsDigit(c)
    ensures d < 10
  {
    (c as int) - ('0' as int)
  }

  function DigitChar(d: nat): (c: char)
    requires d < 10
    ensures IsDigit(c) && DigitValue(c) == d
  {
    (('0' as int) + d) as char
  }

  /** `n.toString()` for a non-negative BigInt: canonical decimal, no leading zero. */
  function NatToString(n: nat): (s: string)
    ensures |s| >= 1 && AllDigits(s)
    ensures s[0] == '0' ==> n == 0
  {
    if n < 10 then [DigitChar(n)] else NatToString(n / 10) + [DigitChar(n % 10)]
  }

  /**
    `BigInt(s)` restricted to plain decimal text: the empty string reads as 0,
    a string of digits reads as its value, anything else throws (None).
  */
  function ParseBigInt(s: string): (r: Option<nat>)
    ensures r.Some? <==> AllDigits(s)
    ensures s == [] ==> r == Some(0)
  {
    if s == [] then Some(0)
    else
      var init := s[..|s| - 1];
      AllDigitsInit(s);
      match ParseBigInt(init)
      case None => None
      case Some(v) =>
        if IsDigit(s[|s| - 1]) then Some(v * 10 + DigitValue(s[|s| - 1])) else None
  }

  /** A text is all digits exactly when all but its last character are, and the last is. */
  lemma AllDigitsInit(s: string)
    requires s != []
    ensures AllDigits(s) <==> AllDigits(s[..|s| - 1]) && IsDigit(s[|s| - 1])
  {
    assert forall i :: 0 <= i < |s| - 1 ==> s[..|s| - 1][i] == s[i];
  }

  /** One more character on the right: a digit adds to the value read so far, times ten. */
  lemma ParseBigIntSnoc(s: string, d: char)
    ensures ParseBigInt(s + [d]) == if ParseBigInt(s).Some? && IsDigit(d)
                                     then Some(ParseBigInt(s).value * 10 + DigitValue(d)) else None
  {
    SnocParts(s, d);
  }

  /** `BigInt(n.toString()) == n`: every value survives the text round trip, however large. */
  lemma {:induction false} ParseNatToString(n: nat)
    ensures ParseBigInt(NatToString(n)) == Some(n)
  {
    if n < 10 {
      assert NatToString(n) == [] + [DigitChar(n)];
      ParseBigIntSnoc([], DigitChar(n));
    } else {
      var q, d := n / 10, n % 10;
      assert NatToString(n) == NatToString(q) + [DigitChar(d)];
      ParseNatToString(q);
      ParseBigIntSnoc(NatToString(q), DigitChar(d));
      assert n == q * 10 + d;
    }
  }

  /** Different values have different texts. */
  lemma NatToStringInjective(a: nat, b: nat)
    requires a != b
    ensures NatToString(a) != NatToString(b)
  {
    ParseNatToString(a);
    ParseNatToString(b);
  }
}
