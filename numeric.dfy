/** Java's integer text forms and integer division, written out: the decimal
    text of BigInteger and Integer, BigInteger(String) and Integer.parseInt,
    and the truncating / and % of Java's int arithmetic. */
module Numeric {
  import opened Wrappers

  /** The range of a Java int. */
  const IntMin: int := -0x8000_0000
  const IntMax: int := 0x7fff_ffff

  type int32 = x: int | -0x8000_0000 <= x <= 0x7fff_ffff

  predicate IsDigit(c: char) {
    '0' <= c <= '9'
  }

  function DigitValue(c: char): nat
    requires IsDigit(c)
  {
    (c as int) - ('0' as int)
  }

  function DigitChar(d: nat): char
    requires d < 10
  {
    (('0' as int) + d) as char
  }

  predicate AllDigits(s: string) {
    forall i :: 0 <= i < |s| ==> IsDigit(s[i])
  }

  /** The value of a string of decimal digits, most significant first. */
  function DigitsValue(s: string): nat
    requires AllDigits(s)
    decreases |s|
  {
    if |s| == 0 then 0 else DigitsValue(s[..|s| - 1]) * 10 + DigitValue(s[|s| - 1])
  }

  /** The shortest decimal digits of n (no leading zeros; "0" for zero). */
  function NatToDigits(n: nat): string
    decreases n
  {
    if n < 10 then [DigitChar(n)] else NatToDigits(n / 10) + [DigitChar(n % 10)]
  }

  /** BigInteger.toString() and Integer.toString(int): a '-' for negative
      values, then the shortest decimal digits. */
  function IntToString(n: int): string {
    if n < 0 then "-" + NatToDigits(-n) else NatToDigits(n)
  }

  /** new BigInteger(String): an optional '-' or '+' and at least one ASCII
      decimal digit, nothing else; None stands for NumberFormatException.
      Java also reads the other Unicode decimal digits, which this model
      treats as malformed. */
  function ParseBigInteger(s: string): Option<int> {
    if |s| > 0 && (s[0] == '-' || s[0] == '+') then
      if |s| > 1 && AllDigits(s[1..]) then
        var v: int := DigitsValue(s[1..]);
        Some(if s[0] == '-' then -v else v)
      else None
    else if |s| > 0 && AllDigits(s) then Some(DigitsValue(s))
    else None
  }

  /** Integer.parseInt(String): BigInteger's syntax (ASCII digits only), and
      the value must fit a Java int; None stands for NumberFormatException. */
  function ParseInt(s: string): (r: Option<int32>)
    ensures r.Some? <==> ParseBigInteger(s).Some? && IntMin <= ParseBigInteger(s).value <= IntMax
    ensures r.Some? ==> r.value == ParseBigInteger(s).value
  {
    match ParseBigInteger(s)
    case Some(v) => if IntMin <= v <= IntMax then Some(v) else None
    case None => None
  }

  lemma {:induction false} DigitsRoundTrip(n: nat)
    ensures |NatToDigits(n)| >= 1 && AllDigits(NatToDigits(n))
    ensures DigitsValue(NatToDigits(n)) == n
    decreases n
  {
    if n >= 10 {
      DigitsRoundTrip(n / 10);
      var s := NatToDigits(n / 10) + [DigitChar(n % 10)];
      assert s[..|s| - 1] == NatToDigits(n / 10);
    }
  }

  /** The decimal text of any integer reads back as that integer. */
  lemma ParseIntToString(n: int)
    ensures ParseBigInteger(IntToString(n)) == Some(n)
  {
    if n < 0 {
      var d := NatToDigits(-n);
      DigitsRoundTrip(-n);
      var s := "-" + d;
      assert s[0] == '-' && s[1..] == d;
      assert IntToString(n) == s;
    } else {
      var d := NatToDigits(n);
      DigitsRoundTrip(n);
      assert IsDigit(d[0]);
      assert IntToString(n) == d;
    }
  }

  /** Integer.parseInt(Integer.toString(n)) == n for every Java int. */
  lemma ParseIntOfInt32(n: int32)
    ensures ParseInt(IntToString(n)) == Some(n)
  {
    ParseIntToString(n);
  }

  /** The decimal text of an integer has no character outside '-' and '0'..'9'. */
  lemma IntToStringChars(n: int)
    ensures |IntToString(n)| >= 1
    ensures forall i :: 0 <= i < |IntToString(n)| ==> IsDigit(IntToString(n)[i]) || IntToString(n)[i] == '-'
  {
    if n < 0 { DigitsRoundTrip(-n); } else { DigitsRoundTrip(n); }
  }

  /** Java's int division, which truncates toward zero (Dafny's / is Euclidean). */
  function JavaDiv(a: int, b: int): (r: int)
    requires b != 0
    ensures (a >= 0 && b > 0) ==> r == a / b
  {
    var m := (if a < 0 then -a else a) / (if b < 0 then -b else b);
    if (a < 0) != (b < 0) then -m else m
  }

  /** Java's int remainder, which takes the sign of the dividend. */
  function JavaRem(a: int, b: int): int
    requires b != 0
  {
    a - b * JavaDiv(a, b)
  }

  /** The Java int result of an int operation whose exact value is x: x
      taken modulo 2^32 into the int range. */
  function Wrap32(x: int): (r: int32)
    ensures IntMin <= x <= IntMax ==> r == x
    ensures (x - r) % 0x1_0000_0000 == 0
  {
    ((x - IntMin) % 0x1_0000_0000) + IntMin
  }
}
