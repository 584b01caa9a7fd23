/** Numbers written in decimal. */
module Decimal {
  import opened Bytes

  const CR: Byte := 13
  const LF: Byte := 10
  const CRLF: seq<Byte> := [CR, LF]
  const ZERO: Byte := 48
  const MINUS: Byte := 45
  const PLUS: Byte := 43

  predicate IsDigit(b: Byte) { ZERO <= b < ZERO + 10 }

  /** The bytes C calls white space. */
  predicate IsSpace(b: Byte) { b == 32 || 9 <= b <= 13 }

  /** `ll2string`, of a number that is not negative. */
  function Digits(n: nat): (d: seq<Byte>)
    ensures d != [] && forall i :: 0 <= i < |d| ==> IsDigit(d[i])
    ensures n > 0 ==> d[0] != ZERO
  {
    (if n < 10 then [] else Digits(n / 10)) + [ZERO + n % 10]
  }

  /** The most significant digit comes first. */
  lemma DigitsInOrder(n: nat)
    ensures Digits(n)[|Digits(n)| - 1] == 48 + n % 10
    ensures n >= 10 ==> Digits(n)[..|Digits(n)| - 1] == Digits(n / 10)
  {
    assert n >= 10 ==> Digits(n)[..|Digits(n / 10)|] == Digits(n / 10);
  }

  function Pow10(k: nat): (p: nat)
    ensures p > 0
  {
    if k == 0 then 1 else 10 * Pow10(k - 1)
  }

  lemma {:induction false} DigitsLength(n: nat, k: nat)
    requires k > 0 && n < Pow10(k)
    ensures |Digits(n)| <= k
  {
    if n >= 10 {
      DigitsLength(n / 10, k - 1);
    }
  }

  // ---------------------------------------------------------------- reading a number

  /** The number that the digits at the front of s continue, after the value so far. */
  function ParseDigits(s: seq<Byte>, value: nat): (r: nat)
    ensures r >= value
  {
    if s == [] || !IsDigit(s[0]) then value else ParseDigits(s[1..], 10 * value + (s[0] - ZERO))
  }

  /** `atoi` and `strtol`, on numbers that fit. */
  function ParseInt(s: seq<Byte>): int {
    if s == [] then 0
    else if IsSpace(s[0]) then ParseInt(s[1..])
    else if s[0] == MINUS then 0 - ParseDigits(s[1..], 0)
    else if s[0] == PLUS then ParseDigits(s[1..], 0)
    else ParseDigits(s, 0)
  }

  /** Digits continue: what follows the digits of n goes on from n. */
  lemma {:induction false} ParseAfter(n: nat, rest: seq<Byte>)
    ensures ParseDigits(Digits(n) + rest, 0) == ParseDigits(rest, n)
  {
    var d := [ZERO + n % 10];
    assert (d + rest)[1..] == rest;
    if n >= 10 {
      ParseAfter(n / 10, d + rest);
      assert Digits(n) + rest == Digits(n / 10) + (d + rest);
      assert 10 * (n / 10) + n % 10 == n;
    } else {
      assert Digits(n) + rest == d + rest;
    }
  }

  /** What is read back is what was written. */
  lemma ParseIntOf(n: nat, rest: seq<Byte>)
    requires rest != [] ==> !IsDigit(rest[0])
    ensures ParseInt(Digits(n) + rest) == n
  {
    ParseAfter(n, rest);
    assert (Digits(n) + rest)[0] == Digits(n)[0];
  }

  /** The front of a number is a number, and one that is not zero is not zero. */
  lemma ParseIntOfFront(n: nat, rest: seq<Byte>, k: nat)
    requires k <= |Digits(n) + rest|
    ensures ParseInt((Digits(n) + rest)[..k]) >= 0
    ensures k > 0 && n > 0 ==> ParseInt((Digits(n) + rest)[..k]) >= 1
  {
    var s := (Digits(n) + rest)[..k];
    if k > 0 {
      assert s[0] == Digits(n)[0];
      if n > 0 {
        assert ParseDigits(s, 0) == ParseDigits(s[1..], s[0] - ZERO);
      }
    }
  }
}
