/** Bytes as the parser sees them: unsigned 8-bit values, the NMEA 0183
    delimiters, hexadecimal digits and the running exclusive-or checksum. */
module Bytes {

  /** An unsigned 8-bit value: a `uint8_t` field of the record, an input
      byte, or a `char` of the term buffer. */
  newtype u8 = x: int | 0 <= x < 256

  /** Conversion of an integer to `uint8_t`: C keeps the value modulo 256. */
  function ToU8(n: int): u8 {
    (n % 256) as u8
  }

  /** ASCII text as bytes (every character used here is below 128). */
  function Ascii(s: string): seq<u8> {
    seq(|s|, i requires 0 <= i < |s| => (s[i] as int % 256) as u8)
  }

  // Delimiters of the NMEA 0183 sentence format
  const DOLLAR: u8 := 0x24  // '$' starts a sentence
  const COMMA: u8 := 0x2C   // ',' separates terms
  const STAR: u8 := 0x2A    // '*' ends the checksummed part
  // Characters that the term decoders look at
  const DOT: u8 := 0x2E     // '.'
  const MINUS: u8 := 0x2D   // '-'
  const ZERO: u8 := 0x30    // '0'

  function Xor(a: u8, b: u8): u8 {
    ((a as bv8) ^ (b as bv8)) as int as u8
  }

  /** The running checksum after folding every byte of `s` into `acc`. */
  function XorFrom(acc: u8, s: seq<u8>): u8
    decreases |s|
  {
    if s == [] then acc else XorFrom(Xor(acc, s[0]), s[1..])
  }

  /** The NMEA 0183 checksum of the characters between `$` and `*`: the
      exclusive-or of all of them. */
  function Checksum(s: seq<u8>): u8 {
    XorFrom(0, s)
  }

  /** Folding a concatenation is folding its two parts one after the other,
      which is what lets the checksum run across chunks and terms. */
  lemma {:induction false} XorFromAppend(acc: u8, a: seq<u8>, b: seq<u8>)
    ensures XorFrom(acc, a + b) == XorFrom(XorFrom(acc, a), b)
    decreases |a|
  {
    if a == [] {
      assert a + b == b;
    } else {
      assert (a + b)[0] == a[0];
      assert (a + b)[1..] == a[1..] + b;
      XorFromAppend(Xor(acc, a[0]), a[1..], b);
    }
  }

  predicate IsDigit(c: u8) {
    ZERO <= c <= ZERO + 9
  }

  /** Hexadecimal digits of the checksum field, in either case. */
  predicate IsHex(c: u8) {
    IsDigit(c) || 0x41 <= c <= 0x46 || 0x61 <= c <= 0x66
  }

  function HexValue(c: u8): (v: int)
    requires IsHex(c)
    ensures 0 <= v < 16
  {
    if IsDigit(c) then c as int - ZERO as int
    else if c <= 0x46 then c as int - 0x41 + 10
    else c as int - 0x61 + 10
  }

  /** The value of a two-digit checksum field. */
  function HexPair(hi: u8, lo: u8): (v: int)
    requires IsHex(hi) && IsHex(lo)
    ensures 0 <= v < 256
  {
    16 * HexValue(hi) + HexValue(lo)
  }

  /** The upper-case hexadecimal digit a transmitter writes for `v`. */
  function HexDigit(v: int): (c: u8)
    requires 0 <= v < 16
    ensures IsHex(c) && HexValue(c) == v
  {
    if v < 10 then (ZERO as int + v) as u8 else (0x41 + v - 10) as u8
  }

  /** The two checksum digits a transmitter writes for `x`; reading them
      back gives `x`. */
  function HexDigits(x: u8): (r: (u8, u8))
    ensures IsHex(r.0) && IsHex(r.1)
    ensures HexPair(r.0, r.1) == x as int
  {
    (HexDigit(x as int / 16), HexDigit(x as int % 16))
  }

  /** The lower-case form of an upper-case letter `A` to `F`; any other byte
      is kept. */
  function Lower(c: u8): (r: u8)
    ensures 0x41 <= c <= 0x46 ==> r as int == c as int + 0x20
    ensures !(0x41 <= c <= 0x46) ==> r == c
  {
    if 0x41 <= c <= 0x46 then (c as int + 0x20) as u8 else c
  }

  /** The checksum field is read case-insensitively: the lower-case form of
      the digits a transmitter writes reads back as the same byte. */
  lemma HexDigitsLowerCase(x: u8)
    ensures var (hi, lo) := HexDigits(x);
            IsHex(Lower(hi)) && IsHex(Lower(lo)) && HexPair(Lower(hi), Lower(lo)) == x as int
  {
  }
}
