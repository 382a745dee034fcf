/** The lexical classes behind the wire-format regular expressions
    (`/^\d+$/`, `/^0x[A-Fa-f0-9]{n}$/`) and the exact numeric values that
    digit strings denote. */
module Lexical {

  type Byte = b: nat | b < 256

  predicate IsDecimalDigit(c: char) {
    '0' <= c <= '9'
  }

  /** `[A-Fa-f0-9]` */
  predicate IsHexDigit(c: char) {
    '0' <= c <= '9' || 'a' <= c <= 'f' || 'A' <= c <= 'F'
  }

  predicate AllDecimal(s: string) {
    forall i | 0 <= i < |s| :: IsDecimalDigit(s[i])
  }

  predicate AllHex(s: string) {
    forall i | 0 <= i < |s| :: IsHexDigit(s[i])
  }

  /** The regular expression `/^\d+$/`: one or more ASCII decimal digits and
      nothing else (JavaScript's `\d` without the `u` flag is `[0-9]`). */
  predicate IsDigitString(s: string) {
    |s| > 0 && AllDecimal(s)
  }

  /** The regular expression `/^0x[A-Fa-f0-9]{n}$/`. */
  predicate IsPrefixedHex(s: string, n: nat) {
    |s| == n + 2 && s[0] == '0' && s[1] == 'x' && AllHex(s[2..])
  }

  function DigitValue(c: char): (d: nat)
    requires IsDecimalDigit(c)
    ensures d < 10
  {
    c as int - '0' as int
  }

  function HexDigitValue(c: char): (d: nat)
    requires IsHexDigit(c)
    ensures d < 16
  {
    if '0' <= c <= '9' then c as int - '0' as int
    else if 'a' <= c <= 'f' then c as int - 'a' as int + 10
    else c as int - 'A' as int + 10
  }

  function DigitChar(d: nat): (c: char)
    requires d < 10
    ensures IsDecimalDigit(c) && DigitValue(c) == d
  {
    ('0' as int + d) as char
  }

  /** The natural number a string of decimal digits denotes (most significant first). */
  function DecimalValue(s: string): nat
    requires AllDecimal(s)
  {
    if s == [] then 0 else DecimalValue(s[..|s| - 1]) * 10 + DigitValue(s[|s| - 1])
  }

  /** The natural number a string of hexadecimal digits denotes, in either case. */
  function HexValue(s: string): nat
    requires AllHex(s)
  {
    if s == [] then 0 else HexValue(s[..|s| - 1]) * 16 + HexDigitValue(s[|s| - 1])
  }

  /** The canonical decimal numeral of `n`: digits only, no leading zero. */
  function DecimalString(n: nat): (s: string)
    ensures IsDigitString(s)
    ensures s[0] == '0' ==> s == "0"
  {
    if n < 10 then [DigitChar(n)] else DecimalString(n / 10) + [DigitChar(n % 10)]
  }

  lemma {:induction false} DecimalRoundTrip(n: nat)
    ensures DecimalValue(DecimalString(n)) == n
  {
    if n >= 10 {
      var s := DecimalString(n);
      assert s[..|s| - 1] == DecimalString(n / 10);
      DecimalRoundTrip(n / 10);
    }
  }

  function Zeros(k: nat): (z: string)
    ensures |z| == k && AllDecimal(z)
  {
    seq(k, _ => '0')
  }

  lemma {:induction false} ZerosDenoteZero(k: nat)
    ensures DecimalValue(Zeros(k)) == 0
  {
    if k > 0 {
      assert Zeros(k)[..k - 1] == Zeros(k - 1);
      ZerosDenoteZero(k - 1);
    }
  }

  /** Leading zeros do not change the value of a numeral. */
  lemma {:induction false} LeadingZerosIgnored(k: nat, s: string)
    requires AllDecimal(s)
    ensures AllDecimal(Zeros(k) + s)
    ensures DecimalValue(Zeros(k) + s) == DecimalValue(s)
  {
    var t := Zeros(k) + s;
    if s == [] {
      assert t == Zeros(k);
      ZerosDenoteZero(k);
    } else {
      assert t[..|t| - 1] == Zeros(k) + s[..|s| - 1];
      LeadingZerosIgnored(k, s[..|s| - 1]);
    }
  }

  /** Two hexadecimal digits per byte, most significant first. */
  function BytesOfHex(d: string): (b: seq<Byte>)
    requires AllHex(d) && |d| % 2 == 0
    ensures |b| == |d| / 2
  {
    if d == [] then []
    else
      var n := |d|;
      BytesOfHex(d[..n - 2]) + [HexDigitValue(d[n - 2]) * 16 + HexDigitValue(d[n - 1])]
  }

  /** The unsigned big-endian value of a byte string. */
  function BigEndianValue(b: seq<Byte>): nat {
    if b == [] then 0 else BigEndianValue(b[..|b| - 1]) * 256 + b[|b| - 1]
  }

  /** Converting digits to bytes keeps the number they denote. */
  lemma {:induction false} BytesOfHexValue(d: string)
    requires AllHex(d) && |d| % 2 == 0
    ensures BigEndianValue(BytesOfHex(d)) == HexValue(d)
  {
    if d != [] {
      var n := |d|;
      var b := BytesOfHex(d);
      var h, x, y := HexValue(d[..n - 2]), HexDigitValue(d[n - 2]), HexDigitValue(d[n - 1]);
      assert BigEndianValue(b) == h * 256 + (x * 16 + y) by {
        assert b[..|b| - 1] == BytesOfHex(d[..n - 2]) && b[|b| - 1] == x * 16 + y;
        BytesOfHexValue(d[..n - 2]);
      }
      assert HexValue(d) == (h * 16 + x) * 16 + y by {
        assert d[..n - 1][..n - 2] == d[..n - 2] && d[..n - 1][n - 2] == d[n - 2];
      }
      TwoDigitsMakeAByte(h, x, y);
    }
  }

  lemma TwoDigitsMakeAByte(h: int, x: int, y: int)
    ensures (h * 16 + x) * 16 + y == h * 256 + (x * 16 + y)
  {
  }
}
