/**
 Decimal rendering of integers, as JavaScript template literals render the
 integral numbers that appear in a placemark (bike counts, coordinates), and
 its inverse.  The inverse exists only to state that the rendering loses no
 information.
 */
module Text {

  predicate IsDigit(c: char) {
    '0' <= c <= '9'
  }

  predicate AllDigits(s: string) {
    forall i :: 0 <= i < |s| ==> IsDigit(s[i])
  }

  /** Text of an optionally signed decimal numeral: an optional '-' then at least one digit. */
  predicate IsIntText(s: string) {
    |s| > 0 && if s[0] == '-' then |s| > 1 && AllDigits(s[1..]) else AllDigits(s)
  }

  function DigitChar(d: nat): (c: char)
    requires d < 10
    ensures IsDigit(c)
  {
    (48 + d) as char
  }

  function DigitValue(c: char): (d: nat)
    requires IsDigit(c)
    ensures d < 10
    ensures DigitChar(d) == c
  {
    c as int - 48
  }

  /** Decimal numeral of a natural number, without leading zeros. */
  function NatToString(n: nat): (s: string)
    ensures |s| >= 1
    ensures AllDigits(s)
    ensures |s| == 1 <==> n < 10
    ensures s[0] == '0' ==> n == 0
    decreases n
  {
    if n < 10 then [DigitChar(n)] else NatToString(n / 10) + [DigitChar(n % 10)]
  }

  function ParseNat(s: string): (n: nat)
    requires AllDigits(s)
    decreases |s|
  {
    if |s| == 0 then 0 else ParseNat(s[..|s| - 1]) * 10 + DigitValue(s[|s| - 1])
  }

  /** Decimal numeral of an integer: a '-' before the numeral of its magnitude when negative. */
  function IntToString(i: int): (s: string)
    ensures |s| >= 1
    ensures IsIntText(s)
    ensures s[0] == '-' <==> i < 0
    ensures forall k :: 1 <= k < |s| ==> IsDigit(s[k])
  {
    if i < 0 then
      var m := NatToString(-i);
      assert ("-" + m)[1..] == m;
      "-" + m
    else NatToString(i)
  }

  function ParseInt(s: string): int
    requires IsIntText(s)
  {
    if |s| > 0 && s[0] == '-' then -(ParseNat(s[1..]) as int) else ParseNat(s)
  }

  lemma {:induction false} ParseNatOfNatToString(n: nat)
    ensures ParseNat(NatToString(n)) == n
    decreases n
  {
    if n >= 10 {
      var s := NatToString(n);
      assert s[..|s| - 1] == NatToString(n / 10);
      ParseNatOfNatToString(n / 10);
    }
  }

  /** Rendering an integer and reading it back gives the integer again. */
  lemma ParseIntOfIntToString(i: int)
    ensures ParseInt(IntToString(i)) == i
  {
    if i < 0 {
      var m := NatToString(-i);
      assert IntToString(i)[1..] == m;
      ParseNatOfNatToString(-i);
    } else {
      ParseNatOfNatToString(i);
    }
  }

  /** A digit string as long as a number's numeral, reading back as that number, is that numeral. */
  lemma {:induction false} NatTextIsCanonical(t: string, n: nat)
    requires AllDigits(t) && ParseNat(t) == n && |t| == |NatToString(n)|
    ensures t == NatToString(n)
    decreases |t|
  {
    var init := t[..|t| - 1];
    var d := DigitValue(t[|t| - 1]);
    assert n == ParseNat(init) * 10 + d;
    if |t| == 1 {
      assert ParseNat(init) == 0;
      assert t == [DigitChar(d)];
    } else {
      assert n / 10 == ParseNat(init) && n % 10 == d;
      NatTextIsCanonical(init, n / 10);
      assert t == init + [t[|t| - 1]];
    }
  }

  /**
   The rendering is the only numeral text of its length that reads back as
   the number: no sign on zero, no leading zeros, no bare '-'.
   */
  lemma IntTextIsCanonical(t: string, i: int)
    requires IsIntText(t) && ParseInt(t) == i && |t| == |IntToString(i)|
    ensures t == IntToString(i)
  {
    if t[0] == '-' {
      assert i < 0;
      assert IntToString(i) == "-" + NatToString(-i);
      NatTextIsCanonical(t[1..], -i);
      assert t == "-" + t[1..];
    } else {
      NatTextIsCanonical(t, i);
    }
  }

  /** The only integer rendered as "0" is zero. */
  lemma IntToStringIsZero(i: int)
    ensures IntToString(i) == "0" <==> i == 0
  {
    if IntToString(i) == "0" {
      ParseIntOfIntToString(i);
    }
  }
}
