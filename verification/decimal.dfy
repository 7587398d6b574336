/** Decimal rendering of integers, as Java's `StringBuilder.append(int)`
    writes them, together with a parser that reads the rendering back. */
module Decimal {
  import opened Wrappers

  predicate IsDigit(c: char) {
    '0' <= c <= '9'
  }

  predicate AllDigits(s: string) {
    forall i :: 0 <= i < |s| ==> IsDigit(s[i])
  }

  function DigitChar(d: nat): (c: char)
    requires d < 10
    ensures IsDigit(c)
  {
    ('0' as int + d) as char
  }

  function DigitValue(c: char): (d: nat)
    requires IsDigit(c)
    ensures d < 10
  {
    c as int - '0' as int
  }

  /** The digits of `n`, most significant first, without leading zeros. */
  function FromNat(n: nat): (s: string)
    ensures |s| > 0
    ensures AllDigits(s)
    ensures s[0] == '0' <==> n == 0
    ensures n == 0 ==> s == "0"
    decreases n
  {
    if n < 10 then [DigitChar(n)] else FromNat(n / 10) + [DigitChar(n % 10)]
  }

  /** Java's rendering of an `int`: a minus sign for negative values, then the digits. */
  function FromInt(n: int): (s: string)
    ensures |s| > 0
    ensures s[0] == '-' <==> n < 0
    ensures AllDigits(if n < 0 then s[1..] else s)
  {
    if n < 0 then "-" + FromNat(-n) else FromNat(n)
  }

  /** The value of a string of digits, read left to right. */
  function ParseDigits(s: string): nat
    requires AllDigits(s)
    decreases |s|
  {
    if |s| == 0 then 0 else ParseDigits(s[..|s| - 1]) * 10 + DigitValue(s[|s| - 1])
  }

  /** Reads an optionally signed decimal integer; `None` if `s` is not one. */
  function ParseInt(s: string): Option<int> {
    if |s| > 1 && s[0] == '-' && AllDigits(s[1..]) then Some(-(ParseDigits(s[1..]) as int))
    else if |s| > 0 && AllDigits(s) then Some(ParseDigits(s))
    else None
  }

  lemma {:induction false} ParseFromNat(n: nat)
    ensures ParseDigits(FromNat(n)) == n
    decreases n
  {
    if n >= 10 {
      var s := FromNat(n);
      assert s[..|s| - 1] == FromNat(n / 10);
      ParseFromNat(n / 10);
    }
  }

  /** Reading a rendered integer back gives the integer: the rendering loses nothing. */
  lemma ParseFromInt(n: int)
    ensures ParseInt(FromInt(n)) == Some(n)
  {
    var s := FromInt(n);
    if n < 0 {
      assert s[1..] == FromNat(-n);
      assert |s| > 1 && s[0] == '-' && AllDigits(s[1..]);
      ParseFromNat(-n);
    } else {
      assert s == FromNat(n) && s[0] != '-';
      ParseFromNat(n);
    }
  }

  /** Distinct integers render differently. */
  lemma FromIntInjective(m: int, n: int)
    ensures FromInt(m) == FromInt(n) ==> m == n
  {
    ParseFromInt(m);
    ParseFromInt(n);
  }
}
