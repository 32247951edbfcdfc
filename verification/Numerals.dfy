/** Printing and parsing of unsigned numbers, as Rust's `format!` and `parse` do it. */
module Numerals {
  import opened Values
  import opened Text

  function DigitChar(d: nat): char
    requires d < 16
  {
    if d < 10 then '0' + d as char else 'a' + (d - 10) as char
  }

  function Decimal(n: nat): string {
    if n < 10 then [DigitChar(n)] else Decimal(n / 10) + [DigitChar(n % 10)]
  }

  /** `{:03}`. */
  function Pad3(n: nat): string {
    var d := Decimal(n);
    if |d| == 1 then "00" + d else if |d| == 2 then "0" + d else d
  }

  /** `{:04x}` of a 16-bit value. */
  function Hex4(n: nat): string
    requires n < 0x10000
  {
    [DigitChar(n / 4096), DigitChar(n / 256 % 16), DigitChar(n / 16 % 16), DigitChar(n % 16)]
  }

  function HexDigitValue(c: char): Option<nat> {
    if '0' <= c <= '9' then Some((c - '0') as nat)
    else if 'a' <= c <= 'f' then Some(10 + (c - 'a') as nat)
    else None
  }

  /** Every digit printed is read back as its value. */
  lemma DigitRoundTrip(d: nat)
    requires d < 16
    ensures HexDigitValue(DigitChar(d)) == Some(d)
  {
  }

  lemma HexSplit(n: nat)
    requires n < 0x10000
    ensures n / 4096 < 16
    ensures n == 4096 * (n / 4096) + 256 * (n / 256 % 16) + 16 * (n / 16 % 16) + n % 16
  {
    var q := n / 16;
    assert n == 16 * q + n % 16;
    assert n == 256 * (q / 16) + 16 * (q % 16) + n % 16;
    assert n / 256 == q / 16;
    assert n == 4096 * (n / 256 / 16) + 256 * (n / 256 % 16) + n % 256;
    assert n / 4096 == n / 256 / 16;
  }

  /** Four hexadecimal digits determine the number. */
  lemma Hex4RoundTrip(n: nat)
    requires n < 0x10000
    ensures |Hex4(n)| == 4 && forall c | c in Hex4(n) :: HexDigitValue(c).Some?
    ensures var h := Hex4(n);
      n == 4096 * HexDigitValue(h[0]).value + 256 * HexDigitValue(h[1]).value
           + 16 * HexDigitValue(h[2]).value + HexDigitValue(h[3]).value
  {
    hide DigitChar, HexDigitValue;
    HexSplit(n);
    DigitRoundTrip(n / 4096);
    DigitRoundTrip(n / 256 % 16);
    DigitRoundTrip(n / 16 % 16);
    DigitRoundTrip(n % 16);
  }

  predicate IsDigit(c: char) {
    '0' <= c <= '9'
  }

  predicate AllDigits(s: string) {
    forall c | c in s :: IsDigit(c)
  }

  function DecimalValue(s: string): nat
    requires AllDigits(s)
  {
    if s == "" then 0
    else
      assert s[|s| - 1] in s && forall c | c in s[..|s| - 1] :: c in s;
      10 * DecimalValue(s[..|s| - 1]) + (s[|s| - 1] - '0') as nat
  }

  /** `str::parse` to an unsigned type below `limit`: an optional plus sign, digits, and no overflow. */
  function ParseUnsigned(s: string, limit: nat): Option<nat> {
    var digits := if s != "" && s[0] == '+' then s[1..] else s;
    if digits != "" && AllDigits(digits) && DecimalValue(digits) < limit then Some(DecimalValue(digits)) else None
  }

  function ParseU16(s: string): Option<nat> {
    ParseUnsigned(s, 0x10000)
  }

  function ParseU32(s: string): Option<nat> {
    ParseUnsigned(s, 0x1_0000_0000)
  }

  lemma {:induction false} DecimalRoundTrip(n: nat)
    ensures Decimal(n) != "" && AllDigits(Decimal(n)) && DecimalValue(Decimal(n)) == n
    ensures n < 10 ==> |Decimal(n)| == 1
    ensures n < 100 ==> |Decimal(n)| <= 2
    ensures n < 1000 ==> |Decimal(n)| <= 3
  {
    if n >= 10 {
      DecimalRoundTrip(n / 10);
      var front := Decimal(n / 10);
      assert Decimal(n)[..|Decimal(n)| - 1] == front;
      assert DigitChar(n % 10) - '0' == (n % 10) as char;
    } else {
      assert Decimal(n)[..0] == "";
    }
  }

  /** A printed number is parsed exactly when it is below the limit of the type. */
  lemma ParseExactly(n: nat, limit: nat)
    ensures ParseUnsigned(Decimal(n), limit) == if n < limit then Some(n) else None
  {
    DecimalRoundTrip(n);
    assert Decimal(n)[0] in Decimal(n);
  }

  lemma {:induction false} LeadingZeros(zeros: string, s: string)
    requires AllDigits(s) && forall c | c in zeros :: c == '0'
    ensures AllDigits(zeros + s) && DecimalValue(zeros + s) == DecimalValue(s)
  {
    if s == "" {
      assert zeros + s == zeros;
      if zeros != "" {
        var front := zeros[..|zeros| - 1];
        assert zeros[|zeros| - 1] in zeros && forall c | c in front :: c in zeros;
        assert forall c | c in front :: c == '0';
        LeadingZeros(zeros[..|zeros| - 1], "");
        assert zeros[..|zeros| - 1] + "" == zeros[..|zeros| - 1];
      }
    } else {
      assert forall c | c in s[..|s| - 1] :: c in s;
      LeadingZeros(zeros, s[..|s| - 1]);
      assert (zeros + s)[..|zeros + s| - 1] == zeros + s[..|s| - 1];
      assert s[|s| - 1] in s && forall c | c in zeros + s :: c in zeros || c in s;
    }
  }

  lemma PadRoundTrip(n: nat)
    requires n < 0x10000
    ensures Pad3(n) != "" && AllDigits(Pad3(n)) && ParseU16(Pad3(n)) == Some(n)
    ensures n < 1000 ==> |Pad3(n)| == 3
  {
    DecimalRoundTrip(n);
    LeadingZeros("00", Decimal(n));
    LeadingZeros("0", Decimal(n));
    ParseDigits(Pad3(n), n);
  }

  lemma ParseDigits(s: string, n: nat)
    requires s != "" && AllDigits(s) && DecimalValue(s) == n < 0x10000
    ensures ParseU16(s) == Some(n)
  {
    hide DecimalValue;
    assert s[0] in s;
  }
}
