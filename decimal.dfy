/**
 * Java's 32-bit `int` as far as the query builder needs it: wrap-around
 * addition, the decimal text that `StringBuilder.append(int)` writes and
 * the parsing done by `Integer.valueOf(String)`.
 */
module Decimal {
  import opened Wrappers

  const MinInt32: int := -0x8000_0000
  const MaxInt32: int := 0x7fff_ffff

  predicate IsInt32(n: int) {
    MinInt32 <= n <= MaxInt32
  }

  /** Java's `a + b` on `int`: the sum, wrapped into the 32-bit range. */
  function AddInt32(a: int, b: int): (r: int)
    ensures IsInt32(r)
    ensures IsInt32(a + b) ==> r == a + b
    ensures (a + b - r) % 0x1_0000_0000 == 0
  {
    var m := (a + b) % 0x1_0000_0000;
    if m > MaxInt32 then m - 0x1_0000_0000 else m
  }

  predicate IsDigit(c: char) {
    '0' <= c <= '9'
  }

  predicate AllDigits(s: string) {
    forall k :: 0 <= k < |s| ==> IsDigit(s[k])
  }

  function DigitChar(d: nat): (c: char)
    requires d < 10
    ensures IsDigit(c) && c as int - '0' as int == d
  {
    ('0' as int + d) as char
  }

  /** The decimal digits of `n`, most significant first, without leading zeros. */
  function NatToDecimal(n: nat): (r: string)
    ensures r != [] && AllDigits(r)
    ensures |r| > 1 ==> r[0] != '0'
  {
    if n < 10 then [DigitChar(n)] else NatToDecimal(n / 10) + [DigitChar(n % 10)]
  }

  /** Java's decimal rendering of an `int`: a minus sign for negative values, then the digits. */
  function IntToDecimal(n: int): (r: string)
    ensures r != [] && (r[0] == '-' <==> n < 0)
    ensures forall k :: 0 < k < |r| ==> IsDigit(r[k])
    ensures n >= 0 ==> IsDigit(r[0])
  {
    if n < 0 then "-" + NatToDecimal(-n) else NatToDecimal(n)
  }

  /** The number that a string of decimal digits denotes. */
  function DigitsValue(s: string): nat
    requires AllDigits(s)
  {
    if s == [] then 0 else DigitsValue(s[..|s| - 1]) * 10 + (s[|s| - 1] as int - '0' as int)
  }

  /** An optional `+` or `-` followed by at least one decimal digit. */
  predicate IsDecimalSyntax(s: string) {
    if s != [] && (s[0] == '-' || s[0] == '+') then |s| > 1 && AllDigits(s[1..])
    else s != [] && AllDigits(s)
  }

  /** The value that a string of `IsDecimalSyntax` denotes, sign included. */
  function SignedValue(s: string): int
    requires IsDecimalSyntax(s)
  {
    if s[0] == '-' then -(DigitsValue(s[1..]) as int)
    else if s[0] == '+' then DigitsValue(s[1..])
    else DigitsValue(s)
  }

  /**
   * Java's `Integer.valueOf(s)` (radix 10): `Some(v)` for an optionally signed
   * run of digits whose value fits in an `int`; `None` where Java throws
   * `NumberFormatException`.
   */
  function ParseInt(s: string): (r: Option<int>)
    ensures s == [] || s == "-" || s == "+" ==> r == None
    ensures s != [] && AllDigits(s) ==> r == if DigitsValue(s) <= MaxInt32 then Some(DigitsValue(s)) else None
    ensures |s| > 1 && s[0] == '+' && AllDigits(s[1..]) ==>
              r == if DigitsValue(s[1..]) <= MaxInt32 then Some(DigitsValue(s[1..])) else None
    ensures |s| > 1 && s[0] == '-' && AllDigits(s[1..]) ==>
              r == if DigitsValue(s[1..]) <= -MinInt32 then Some(-(DigitsValue(s[1..]) as int)) else None
    ensures (exists k :: 0 < k < |s| && !IsDigit(s[k])) || (s != [] && !IsDigit(s[0]) && s[0] != '-' && s[0] != '+') ==> r == None
  {
    if IsDecimalSyntax(s) && IsInt32(SignedValue(s)) then Some(SignedValue(s)) else None
  }

  lemma {:induction false} NatToDecimalValue(n: nat)
    ensures DigitsValue(NatToDecimal(n)) == n
  {
    if n >= 10 {
      NatToDecimalValue(n / 10);
      var r := NatToDecimal(n);
      assert r[..|r| - 1] == NatToDecimal(n / 10);
    }
  }

  /** Round trip: `Integer.valueOf(String.valueOf(n)) == n` for every `int` value. */
  lemma ParseIntOfDecimal(n: int)
    requires IsInt32(n)
    ensures ParseInt(IntToDecimal(n)) == Some(n)
  {
    var r := IntToDecimal(n);
    if n < 0 {
      assert r[1..] == NatToDecimal(-n);
      NatToDecimalValue(-n);
    } else {
      NatToDecimalValue(n);
    }
  }
}
