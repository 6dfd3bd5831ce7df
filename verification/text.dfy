/** Decimal rendering of Java `int` and `boolean` values as string
    concatenation produces them, and a reader that recovers an integer from
    the front of a line, so that rendered lines can be shown to keep the
    numbers they display. */
module Text {

  /** Java's 32-bit `int`. No arithmetic is done on these values anywhere in
      the model, so no wrap-around is needed. */
  type Int32 = x: int | -0x8000_0000 <= x < 0x8000_0000

  datatype Option<T> = None | Some(value: T)

  predicate IsDigit(c: char) {
    '0' <= c <= '9'
  }

  predicate AllDigits(s: string) {
    forall i :: 0 <= i < |s| ==> IsDigit(s[i])
  }

  function DigitValue(c: char): (d: nat)
    requires IsDigit(c)
    ensures d < 10
  {
    c as int - '0' as int
  }

  function DigitChar(d: nat): (c: char)
    requires d < 10
    ensures IsDigit(c)
    ensures DigitValue(c) == d
  {
    ('0' as int + d) as char
  }

  /** Decimal digits of `n`, most significant first, with no leading zero. */
  function NatToString(n: nat): (s: string)
    ensures |s| >= 1
    ensures AllDigits(s)
    ensures s[0] == '0' <==> n == 0
    decreases n
  {
    if n < 10 then [DigitChar(n)] else NatToString(n / 10) + [DigitChar(n % 10)]
  }

  /** Java's `Integer.toString`: a minus sign for negative values, then the
      digits of the magnitude. */
  function IntToString(n: int): (s: string)
    ensures |s| >= 1
    ensures s[0] == '-' <==> n < 0
    ensures n >= 0 ==> AllDigits(s)
    ensures n < 0 ==> AllDigits(s[1..]) && |s| >= 2
  {
    if n < 0 then "-" + NatToString(-n) else NatToString(n)
  }

  /** Java's `String.valueOf(boolean)`. */
  function BoolToString(b: bool): string {
    if b then "true" else "false"
  }

  /** Value of a string of decimal digits, most significant first. */
  function ParseDigits(s: string): nat
    requires AllDigits(s)
  {
    if |s| == 0 then 0 else ParseDigits(s[..|s| - 1]) * 10 + DigitValue(s[|s| - 1])
  }

  /** The longest prefix of `s` made of digits. */
  function TakeDigits(s: string): (d: string)
    ensures d <= s
    ensures AllDigits(d)
    ensures |d| == |s| || !IsDigit(s[|d|])
  {
    if |s| > 0 && IsDigit(s[0]) then [s[0]] + TakeDigits(s[1..]) else []
  }

  /** Reads an optionally negative decimal integer from the front of `s`;
      `None` when no digit follows the optional sign. */
  function ReadLeadingInt(s: string): (r: Option<int>)
    ensures r.Some? ==> (r.value < 0 ==> |s| > 0 && s[0] == '-')
  {
    if |s| > 0 && s[0] == '-' then
      var d := TakeDigits(s[1..]);
      if |d| == 0 then None else Some(-(ParseDigits(d) as int))
    else
      var d := TakeDigits(s);
      if |d| == 0 then None else Some(ParseDigits(d))
  }

  lemma {:induction false} ParseNatToString(n: nat)
    ensures ParseDigits(NatToString(n)) == n
    decreases n
  {
    if n >= 10 {
      var s := NatToString(n);
      assert s[..|s| - 1] == NatToString(n / 10);
      ParseNatToString(n / 10);
    }
  }

  lemma {:induction false} TakeDigitsStopsAtNonDigit(d: string, rest: string)
    requires AllDigits(d)
    requires rest == [] || !IsDigit(rest[0])
    ensures TakeDigits(d + rest) == d
  {
    if |d| > 0 {
      assert (d + rest)[1..] == d[1..] + rest;
      TakeDigitsStopsAtNonDigit(d[1..], rest);
      assert d == [d[0]] + d[1..];
    } else {
      assert d + rest == rest;
    }
  }

  lemma ReadNatToString(m: nat, rest: string)
    requires rest == [] || !IsDigit(rest[0])
    ensures ReadLeadingInt(NatToString(m) + rest) == Some(m)
  {
    var d := NatToString(m);
    assert (d + rest)[0] == d[0] && IsDigit(d[0]);
    TakeDigitsStopsAtNonDigit(d, rest);
    ParseNatToString(m);
  }

  lemma ReadNegativeToString(m: nat, rest: string)
    requires m > 0
    requires rest == [] || !IsDigit(rest[0])
    ensures ReadLeadingInt("-" + NatToString(m) + rest) == Some(-(m as int))
  {
    var d := NatToString(m);
    var s := "-" + d + rest;
    assert s[0] == '-';
    assert s[1..] == d + rest;
    TakeDigitsStopsAtNonDigit(d, rest);
    ParseNatToString(m);
  }

  /** Reading back a rendered integer that is followed by a non-digit (or by
      nothing) yields the integer itself. */
  lemma ReadIntToString(n: int, rest: string)
    requires rest == [] || !IsDigit(rest[0])
    ensures ReadLeadingInt(IntToString(n) + rest) == Some(n)
  {
    if n < 0 {
      ReadNegativeToString(-n, rest);
    } else {
      ReadNatToString(n, rest);
    }
  }

  /** Distinct integers are rendered as distinct strings. */
  lemma IntToStringInjective(a: int, b: int)
    requires IntToString(a) == IntToString(b)
    ensures a == b
  {
    ReadIntToString(a, []);
    ReadIntToString(b, []);
    assert IntToString(a) + [] == IntToString(a);
    assert IntToString(b) + [] == IntToString(b);
  }
}
