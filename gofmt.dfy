/**
 * Go's `fmt` verb `%05d` on an `int`: decimal digits, zero-padded on the left
 * to a width of five characters, the minus sign of a negative number counting
 * towards that width. `ParseSigned` reads such text back.
 */
module GoFmt {
  import opened GoStrings

  function DigitChar(d: nat): (c: char)
    requires d < 10
    ensures IsDigit(c)
  {
    ('0' as int + d) as char
  }

  function DigitValue(c: char): (d: nat)
    requires IsDigit(c)
    ensures d < 10 && DigitChar(d) == c
  {
    c as int - '0' as int
  }

  /** The decimal digits of `n`, without leading zeros. */
  function Decimal(n: nat): (s: string)
    ensures |s| >= 1 && All(s, IsDigit)
    ensures n >= 10 ==> s[0] != '0'
  {
    if n < 10 then [DigitChar(n)] else Decimal(n / 10) + [DigitChar(n % 10)]
  }

  function Zeros(n: nat): (z: string)
    ensures |z| == n && forall k :: 0 <= k < n ==> z[k] == '0'
  {
    seq(n, _ => '0')
  }

  /** `s` with zeros in front, so that it is at least `width` characters long. */
  function ZeroPad(s: string, width: nat): (r: string)
    ensures |r| == if |s| < width then width else |s|
    ensures r == Zeros(|r| - |s|) + s
  {
    if |s| < width then Zeros(width - |s|) + s else s
  }

  /** `fmt.Sprintf("%05d", n)`. */
  function Pad05(n: int): (s: string)
    ensures |s| >= 5
  {
    if n < 0 then "-" + ZeroPad(Decimal(-n), 4) else ZeroPad(Decimal(n), 5)
  }

  /** The number a string of decimal digits denotes; leading zeros are allowed. */
  function DigitsValue(s: string): (n: nat)
    requires All(s, IsDigit)
  {
    if s == [] then 0 else DigitsValue(s[..|s| - 1]) * 10 + DigitValue(s[|s| - 1])
  }

  /** Reads an optionally negative decimal number, as `strconv.Atoi` would. */
  function ParseSigned(s: string): (n: int)
    requires |s| > 0
    requires if s[0] == '-' then All(s[1..], IsDigit) else All(s, IsDigit)
  {
    if s[0] == '-' then -(DigitsValue(s[1..]) as int) else DigitsValue(s)
  }

  lemma {:induction false} DecimalValue(n: nat)
    ensures DigitsValue(Decimal(n)) == n
  {
    if n >= 10 {
      var s := Decimal(n);
      assert s[..|s| - 1] == Decimal(n / 10);
      DecimalValue(n / 10);
    }
  }

  lemma {:induction false} LeadingZerosValue(z: string, s: string)
    requires All(z, IsDigit) && All(s, IsDigit)
    requires forall k :: 0 <= k < |z| ==> z[k] == '0'
    ensures All(z + s, IsDigit) && DigitsValue(z + s) == DigitsValue(s)
  {
    if s == [] {
      assert z + s == z;
      if z != [] {
        LeadingZerosValue(z[..|z| - 1], []);
        assert z[..|z| - 1] + [] == z[..|z| - 1];
      }
    } else {
      var zs := z + s;
      assert zs[..|zs| - 1] == z + s[..|s| - 1];
      LeadingZerosValue(z, s[..|s| - 1]);
    }
  }

  /** A zero-padded number reads back as the number: `%05d` loses nothing. */
  lemma Pad05RoundTrip(n: int)
    ensures |Pad05(n)| > 0
    ensures var s := Pad05(n); if s[0] == '-' then All(s[1..], IsDigit) else All(s, IsDigit)
    ensures ParseSigned(Pad05(n)) == n
  {
    var m: nat := if n < 0 then -n else n;
    var d := Decimal(m);
    var p := ZeroPad(d, if n < 0 then 4 else 5);
    LeadingZerosValue(Zeros(|p| - |d|), d);
    DecimalValue(m);
    if n < 0 {
      assert Pad05(n)[1..] == p;
    } else {
      assert Pad05(n) == p;
      assert p[0] != '-' by { assert p[0] == '0' || p[0] == d[0]; }
    }
  }

  /** Different numbers are formatted differently. */
  lemma Pad05Injective(a: int, b: int)
    requires Pad05(a) == Pad05(b)
    ensures a == b
  {
    Pad05RoundTrip(a);
    Pad05RoundTrip(b);
  }

  /** Codes of up to five digits take exactly five characters, padded with zeros. */
  lemma Pad05Width(n: int)
    ensures 0 <= n < 100000 ==> |Pad05(n)| == 5 && All(Pad05(n), IsDigit)
  {
    if 0 <= n < 100000 { DecimalBelow(n, 5); }
  }

  /** Numbers of six or more digits are printed in full, without padding. */
  lemma Pad05Wide(n: int)
    requires n >= 100000
    ensures Pad05(n) == Decimal(n)
  {
    DecimalAtLeast(n, 5);
  }

  lemma {:induction false} DecimalBelow(n: nat, k: nat)
    requires k >= 1 && n < Pow10(k)
    ensures |Decimal(n)| <= k
  {
    if n >= 10 { DecimalBelow(n / 10, k - 1); }
  }

  lemma {:induction false} DecimalAtLeast(n: nat, k: nat)
    requires n >= Pow10(k)
    ensures |Decimal(n)| >= k + 1
  {
    if k > 0 {
      assert n >= 10;
      DecimalAtLeast(n / 10, k - 1);
    }
  }

  function Pow10(k: nat): (p: nat)
    ensures p >= 1
  {
    if k == 0 then 1 else 10 * Pow10(k - 1)
  }
}
