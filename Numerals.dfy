/** Decimal parsing and binary formatting of A-instruction words: the parts of
    strconv.ParseInt(s, 10, 0), strconv.FormatInt(n, 2) and fmt's zero-padded
    "%016v" that the address encoder relies on. */
module Numerals {

  predicate IsDigit(c: char) { '0' <= c <= '9' }

  predicate AllDigits(s: string) { forall i :: 0 <= i < |s| ==> IsDigit(s[i]) }

  /** Value of a string of decimal digits, most significant digit first. */
  function DigitsValue(s: string): nat
    requires AllDigits(s)
  {
    if s == [] then 0 else DigitsValue(s[..|s| - 1]) * 10 + (s[|s| - 1] as int - '0' as int)
  }

  /** The strings ParseInt accepts in base 10: an optional sign and at least one digit. */
  predicate IsNumeral(s: string)
  {
    || (|s| > 0 && AllDigits(s))
    || (|s| > 1 && (s[0] == '+' || s[0] == '-') && AllDigits(s[1..]))
  }

  function NumeralValue(s: string): int
    requires IsNumeral(s)
  {
    if |s| > 0 && AllDigits(s) then DigitsValue(s)
    else if s[0] == '-' then -(DigitsValue(s[1..]) as int)
    else DigitsValue(s[1..])
  }

  /** 2^63: ParseInt with bit size 0 reports a range error from here on. */
  const Int64Bound: nat := 0x8000_0000_0000_0000

  /** An A-instruction operand this model covers: if it parses as an integer,
      the value is non-negative and fits an int64. */
  predicate OperandInScope(s: string)
  {
    IsNumeral(s) ==> 0 <= NumeralValue(s) < Int64Bound
  }

  predicate IsBits(s: string) { forall i :: 0 <= i < |s| ==> s[i] == '0' || s[i] == '1' }

  /** The number a string of binary digits denotes, most significant first. */
  function BitsValue(s: string): nat
    requires IsBits(s)
  {
    if s == [] then 0 else 2 * BitsValue(s[..|s| - 1]) + (if s[|s| - 1] == '1' then 1 else 0)
  }

  function Pow2(k: nat): (p: nat)
    ensures p >= 1
  {
    if k == 0 then 1 else 2 * Pow2(k - 1)
  }

  /** strconv.FormatInt(n, 2) for n >= 0: binary digits without leading zeros. */
  function BinaryDigits(n: nat): (r: string)
    ensures |r| > 0 && IsBits(r)
    ensures n == 0 ==> r == "0"
    ensures n > 0 ==> r[0] == '1'
  {
    if n < 2 then (if n == 0 then "0" else "1")
    else BinaryDigits(n / 2) + (if n % 2 == 0 then "0" else "1")
  }

  function Zeros(k: nat): (z: string)
  {
    seq(k, _ => '0')
  }

  /** fmt.Sprintf("%016v", s) on a string: left-padded with '0' to 16
      characters, never truncated. */
  function Pad16(s: string): string
  {
    if |s| < 16 then Zeros(16 - |s|) + s else s
  }

  /** The padding keeps s as the word's tail, puts only '0's before it, and
      makes the word 16 characters unless s is already longer. */
  lemma Pad16Shape(s: string)
    ensures |Pad16(s)| == if |s| < 16 then 16 else |s|
    ensures Pad16(s)[|Pad16(s)| - |s|..] == s
    ensures forall i :: 0 <= i < |Pad16(s)| - |s| ==> Pad16(s)[i] == '0'
  {
  }

  /** The word A_CMDToBin prints for the value n. */
  function AWord(n: nat): string
  {
    Pad16(BinaryDigits(n))
  }

  lemma {:induction false} BinaryDigitsValue(n: nat)
    ensures BitsValue(BinaryDigits(n)) == n
  {
    if n >= 2 {
      var r := BinaryDigits(n);
      BinaryDigitsValue(n / 2);
      assert r[..|r| - 1] == BinaryDigits(n / 2);
    }
  }

  lemma {:induction false} BitsValueBound(s: string)
    requires IsBits(s)
    ensures BitsValue(s) < Pow2(|s|)
  {
    if s != [] {
      BitsValueBound(s[..|s| - 1]);
    }
  }

  /** A value below 2^k has at most k binary digits, and conversely. */
  lemma {:induction false} BinaryDigitsLength(n: nat, k: nat)
    requires k >= 1
    ensures |BinaryDigits(n)| <= k <==> n < Pow2(k)
  {
    if n < Pow2(k) {
      ShortBinary(n, k);
    } else {
      BinaryDigitsValue(n);
      BitsValueBound(BinaryDigits(n));
      if |BinaryDigits(n)| <= k {
        PowMonotone(|BinaryDigits(n)|, k);
      }
    }
  }

  lemma {:induction false} ShortBinary(n: nat, k: nat)
    requires k >= 1 && n < Pow2(k)
    ensures |BinaryDigits(n)| <= k
  {
    if n >= 2 {
      ShortBinary(n / 2, k - 1);
    }
  }

  lemma {:induction false} PowMonotone(i: nat, j: nat)
    requires i <= j
    ensures Pow2(i) <= Pow2(j)
  {
    if i < j {
      PowMonotone(i, j - 1);
    }
  }

  /** Leading zeros do not change the value of a binary string. */
  lemma {:induction false} LeadingZeros(k: nat, s: string)
    requires IsBits(s)
    ensures IsBits(Zeros(k) + s) && BitsValue(Zeros(k) + s) == BitsValue(s)
  {
    var z := Zeros(k) + s;
    if s == [] {
      assert z == Zeros(k);
      AllZeros(k);
    } else {
      LeadingZeros(k, s[..|s| - 1]);
      assert z[..|z| - 1] == Zeros(k) + s[..|s| - 1];
    }
  }

  lemma {:induction false} AllZeros(k: nat)
    ensures IsBits(Zeros(k)) && BitsValue(Zeros(k)) == 0
  {
    if k > 0 {
      AllZeros(k - 1);
      assert Zeros(k)[..k - 1] == Zeros(k - 1);
    }
  }

  /** Every A word is a binary string of at least 16 characters that reads back as n. */
  lemma AWordDecodes(n: nat)
    ensures IsBits(AWord(n)) && |AWord(n)| >= 16
    ensures BitsValue(AWord(n)) == n
  {
    var b := BinaryDigits(n);
    BinaryDigitsValue(n);
    if |b| < 16 {
      LeadingZeros(16 - |b|, b);
    }
  }

  /** For 0 <= n < 2^16 the word is exactly 16 characters, and its leading bit
      is '0' exactly when n < 2^15. */
  lemma AWordFormat(n: nat)
    requires n < 0x1_0000
    ensures |AWord(n)| == 16
    ensures AWord(n)[0] == '0' <==> n < 0x8000
  {
    assert Pow2(15) == 0x8000;
    assert Pow2(16) == 0x1_0000;
    BinaryDigitsLength(n, 16);
    BinaryDigitsLength(n, 15);
  }

  /** The words of 0 and 1. */
  lemma AWordSmall()
    ensures AWord(0) == "0000000000000000"
    ensures AWord(1) == "0000000000000001"
  {
    assert Zeros(15) == "000000000000000";
  }

  /** Distinct values give distinct words. */
  lemma AWordInjective(n: nat, m: nat)
    requires AWord(n) == AWord(m)
    ensures n == m
  {
    AWordDecodes(n);
    AWordDecodes(m);
  }
}
