/** Decimal text of integers: `std::to_string`, the pattern `-?\d+`, and `std::stoll`. */
module Decimal {
  import opened Wrappers
  import opened Text

  const INT_MIN := -0x8000_0000
  const INT_MAX := 0x7FFF_FFFF
  const LLONG_MIN := -0x8000_0000_0000_0000
  const LLONG_MAX := 0x7FFF_FFFF_FFFF_FFFF

  predicate InInt(v: int) { INT_MIN <= v <= INT_MAX }

  predicate InLongLong(v: int) { LLONG_MIN <= v <= LLONG_MAX }

  function Clamp(v: int): (r: int)
    ensures InInt(r) && (InInt(v) ==> r == v)
  {
    if v < INT_MIN then INT_MIN else if v > INT_MAX then INT_MAX else v
  }

  function DigitChar(d: nat): char
    requires d < 10
  {
    '0' + d as char
  }

  function DigitValue(c: char): (d: nat)
    requires IsDigit(c)
    ensures d < 10 && "0123456789"[d] == c
  {
    (c - '0') as int
  }

  function Digits(n: nat): string
  {
    if n < 10 then [DigitChar(n)] else Digits(n / 10) + [DigitChar(n % 10)]
  }

  function ToString(v: int): string
  {
    if v < 0 then "-" + Digits(-v) else Digits(v)
  }

  ghost predicate AllDigits(s: string) { All(s, IsDigit) }

  function DigitsValue(s: string): nat
    requires AllDigits(s)
  {
    if s == "" then 0 else 10 * DigitsValue(s[..|s| - 1]) + DigitValue(s[|s| - 1])
  }

  /** Text that the pattern `-?\d+` matches in full. */
  ghost predicate IsIntText(t: string)
  {
    |t| > 0 && (if t[0] == '-' then |t| > 1 && AllDigits(t[1..]) else AllDigits(t))
  }

  function IntValue(t: string): int
    requires IsIntText(t)
  {
    if t[0] == '-' then 0 - DigitsValue(t[1..]) else DigitsValue(t)
  }

  lemma {:induction false} DigitsRoundTrip(n: nat)
    ensures AllDigits(Digits(n)) && Digits(n) != "" && DigitsValue(Digits(n)) == n
  {
    if n >= 10 {
      DigitsRoundTrip(n / 10);
      var d := Digits(n);
      assert d[..|d| - 1] == Digits(n / 10);
    }
  }

  /** Printing an integer and reading it back gives the integer. */
  lemma ToStringRoundTrip(v: int)
    ensures IsIntText(ToString(v)) && IntValue(ToString(v)) == v
  {
    DigitsRoundTrip(if v < 0 then -v else v);
    if v < 0 {
      assert ToString(v)[1..] == Digits(-v);
    } else {
      assert IsDigit(ToString(v)[0]);
    }
  }

  /** Zeros in front do not change a number. */
  lemma {:induction false} LeadingZero(t: string)
    requires AllDigits(t)
    ensures AllDigits("0" + t) && DigitsValue("0" + t) == DigitsValue(t)
  {
    var z := "0" + t;
    if t == "" {
      assert z[..0] == "";
    } else {
      LeadingZero(t[..|t| - 1]);
      assert z[..|z| - 1] == "0" + t[..|t| - 1];
    }
  }

  /** A match of `-?\d+` at the front of `s`: the matched text and what follows it. */
  datatype IntScan = NoInt | IntFound(text: string, rest: string)

  function ScanInt(s: string): (m: IntScan)
    ensures m.IntFound? ==> IsIntText(m.text) && s == m.text + m.rest && StopsAt(m.rest, IsDigit) && IsSuffix(m.rest, s)
  {
    var sign := if s != "" && s[0] == '-' then 1 else 0;
    var n := Run(s[sign..], IsDigit);
    if n == 0 then NoInt
    else
      assert sign == 1 ==> s[..sign + n][1..] == s[sign..][..n];
      assert sign == 0 ==> s[..sign + n] == s[sign..][..n] && IsDigit(s[..n][0]);
      assert s[sign + n..] == s[sign..][n..];
      IntFound(s[..sign + n], s[sign + n..])
  }

  lemma ScanIntAppend(t: string, rest: string)
    requires IsIntText(t) && StopsAt(rest, IsDigit)
    ensures ScanInt(t + rest) == IntFound(t, rest)
  {
    hide Run;
    var s := t + rest;
    assert s[0] == t[0] && s[..|t|] == t && s[|t|..] == rest;
    if t[0] == '-' {
      assert s[1..] == t[1..] + rest;
      RunAppend(t[1..], rest, IsDigit);
    } else {
      assert s[0..] == s;
      RunAppend(t, rest, IsDigit);
    }
  }

  /** `std::stoll` on text matched by `-?\d+`; it throws when the value needs more than 64 bits. */
  function Stoll(t: string): Result<int>
    requires IsIntText(t)
  {
    if InLongLong(IntValue(t)) then Ok(IntValue(t)) else Err
  }
}
