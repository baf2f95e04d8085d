/**
 * Decimal text: `str(n)` for integers (as `f'{n:}'` renders them) and
 * `int(s)` for a string of ASCII digits.
 */
module Decimal {
  import opened Values

  predicate IsDigit(c: char) {
    '0' <= c <= '9'
  }

  predicate AllDigits(s: string) {
    forall i :: 0 <= i < |s| ==> IsDigit(s[i])
  }

  function DigitChar(d: nat): (c: char)
    requires d < 10
    ensures IsDigit(c) && c as int - '0' as int == d
  {
    ('0' as int + d) as char
  }

  /** `str(n)` for a natural number: decimal digits, no leading zero. */
  function NatToString(n: nat): (s: string)
    ensures s != [] && AllDigits(s)
    ensures s[0] == '0' ==> n == 0
    ensures n < 10 <==> |s| == 1
  {
    if n < 10 then [DigitChar(n)]
    else NatToString(n / 10) + [DigitChar(n % 10)]
  }

  /** `str(i)` for any integer: a minus sign before the digits of a negative number. */
  function IntToString(i: int): (s: string)
    ensures s != []
    ensures i < 0 <==> s[0] == '-'
  {
    if i < 0 then "-" + NatToString(-i) else NatToString(i)
  }

  /** The number a run of digits denotes (leading zeros allowed, as `int` allows them). */
  function DigitsValue(s: string): nat
    requires AllDigits(s)
  {
    if s == [] then 0
    else DigitsValue(s[..|s| - 1]) * 10 + (s[|s| - 1] as int - '0' as int)
  }

  /** `int(s)` on a string drawn from ASCII digits: an empty string is a ValueError. */
  function ParseNat(s: string): (r: Result<nat, Error>)
    requires AllDigits(s)
    ensures r.Err? <==> s == []
  {
    if s == [] then Err(ValueError) else Ok(DigitsValue(s))
  }

  /** `int(s)` with an optional leading minus sign. */
  function ParseInt(s: string): Result<int, Error> {
    if s != [] && s[0] == '-' then
      if AllDigits(s[1..]) then
        match ParseNat(s[1..])
        case Ok(n) => Ok(0 - n as int)
        case Err(e) => Err(e)
      else Err(ValueError)
    else if AllDigits(s) then
      match ParseNat(s)
      case Ok(n) => Ok(n)
      case Err(e) => Err(e)
    else Err(ValueError)
  }

  lemma {:induction false} NatRoundTrip(n: nat)
    ensures DigitsValue(NatToString(n)) == n
  {
    if n >= 10 {
      var s := NatToString(n);
      assert s[..|s| - 1] == NatToString(n / 10);
      NatRoundTrip(n / 10);
    }
  }

  /** Reading back what `str` wrote gives the integer again. */
  lemma {:induction false} IntRoundTrip(i: int)
    ensures ParseInt(IntToString(i)) == Ok(i)
  {
    var s := IntToString(i);
    if i < 0 {
      var d := NatToString(-i);
      assert s == "-" + d;
      assert s[1..] == d;
      NatRoundTrip(-i);
      assert ParseNat(d) == Ok(-i);
    } else {
      assert IsDigit(s[0]);
      NatRoundTrip(i);
      assert ParseNat(s) == Ok(i);
    }
  }

  // ---------------------------------------------------------------------------
  // Thousands separators

  /** Digits in groups of three from the right, the groups separated by commas. */
  function GroupThousands(d: string): string
    decreases |d|
  {
    if |d| <= 3 then d else GroupThousands(d[..|d| - 3]) + "," + d[|d| - 3..]
  }

  /** `f'{n:,.0f}'` of a whole number. */
  function Thousands(n: int): string {
    if n < 0 then "-" + GroupThousands(NatToString(-n)) else GroupThousands(NatToString(n))
  }

  /** The text with its commas removed. */
  function DropCommas(s: string): string {
    if s == [] then [] else (if s[0] == ',' then [] else [s[0]]) + DropCommas(s[1..])
  }

  lemma {:induction false} DropCommasAppend(a: string, b: string)
    ensures DropCommas(a + b) == DropCommas(a) + DropCommas(b)
  {
    if a != [] {
      assert (a + b)[1..] == a[1..] + b;
      DropCommasAppend(a[1..], b);
    } else {
      assert a + b == b;
    }
  }

  lemma {:induction false} DropCommasOfDigits(d: string)
    requires AllDigits(d)
    ensures DropCommas(d) == d
  {
    if d != [] {
      DropCommasOfDigits(d[1..]);
    }
  }

  /** Grouping only inserts commas: removing them gives the digits back. */
  lemma {:induction false} GroupThousandsRoundTrip(d: string)
    requires AllDigits(d)
    ensures DropCommas(GroupThousands(d)) == d
    decreases |d|
  {
    if |d| <= 3 {
      DropCommasOfDigits(d);
    } else {
      var hi := d[..|d| - 3];
      var lo := d[|d| - 3..];
      GroupThousandsRoundTrip(hi);
      DropCommasAppend(GroupThousands(hi) + ",", lo);
      DropCommasAppend(GroupThousands(hi), ",");
      DropCommasOfDigits(lo);
      assert hi + lo == d;
    }
  }

  /** The separated text reads back, without its commas, as the same number. */
  lemma ThousandsRoundTrip(n: int)
    ensures ParseInt(DropCommas(Thousands(n))) == Ok(n)
  {
    var m: nat := if n < 0 then -n else n;
    GroupThousandsRoundTrip(NatToString(m));
    if n < 0 {
      DropCommasAppend("-", GroupThousands(NatToString(m)));
      assert DropCommas(Thousands(n)) == IntToString(n);
    }
    IntRoundTrip(n);
  }
}
