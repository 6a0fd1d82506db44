/** The term buffer's capacity and the pure decoding of one term's text:
    integers, decimal numbers, coordinates, two-digit time and date
    fields, hemisphere letters and the status letter. */
module Terms {
  import opened Bytes

  /** `term_str` has 13 bytes: at most 12 characters and a terminator. */
  const TERM_CAPACITY: nat := 12

  /** The text the term buffer holds after `t` was written into it: the
      characters past the capacity are dropped. */
  function Keep(t: seq<u8>): (r: seq<u8>)
    ensures |r| <= TERM_CAPACITY && |r| <= |t|
    ensures r == t[..|r|]
    ensures |t| <= TERM_CAPACITY ==> r == t
    ensures |t| >= TERM_CAPACITY ==> |r| == TERM_CAPACITY
  {
    if |t| <= TERM_CAPACITY then t else t[..TERM_CAPACITY]
  }

  /** Truncating as the characters arrive is the same as truncating once
      at the end. */
  lemma KeepAppend(a: seq<u8>, b: seq<u8>)
    ensures Keep(Keep(a) + b) == Keep(a + b)
  {
    if |a| >= TERM_CAPACITY {
      assert (a + b)[..TERM_CAPACITY] == a[..TERM_CAPACITY];
    } else {
      assert Keep(a) == a;
    }
  }

  // ---------------------------------------------------------------------
  // Decimal integers

  function DigitValue(c: u8): (v: nat)
    requires IsDigit(c)
    ensures v < 10
  {
    c as int - ZERO as int
  }

  /** The digit character for `d`. */
  function DigitChar(d: nat): (c: u8)
    requires d < 10
    ensures IsDigit(c) && DigitValue(c) == d
  {
    (ZERO as int + d) as u8
  }

  predicate AllDigits(s: seq<u8>) {
    forall i :: 0 <= i < |s| ==> IsDigit(s[i])
  }

  /** The longest run of digits at the front of `t`. */
  function LeadingDigits(t: seq<u8>): (r: seq<u8>)
    ensures |r| <= |t| && r == t[..|r|]
    ensures AllDigits(r)
    ensures |r| < |t| ==> !IsDigit(t[|r|])
  {
    if t == [] || !IsDigit(t[0]) then [] else [t[0]] + LeadingDigits(t[1..])
  }

  /** The run of digits stops at the first character that is not one. */
  lemma {:induction false} LeadingDigitsStop(ds: seq<u8>, rest: seq<u8>)
    requires AllDigits(ds)
    requires rest == [] || !IsDigit(rest[0])
    ensures LeadingDigits(ds + rest) == ds
  {
    if ds == [] {
      assert ds + rest == rest;
    } else {
      assert (ds + rest)[1..] == ds[1..] + rest;
      LeadingDigitsStop(ds[1..], rest);
    }
  }

  /** The value of a string of decimal digits, most significant first. */
  function DigitsValue(ds: seq<u8>): nat
    requires AllDigits(ds)
  {
    if ds == [] then 0 else 10 * DigitsValue(ds[..|ds| - 1]) + DigitValue(ds[|ds| - 1])
  }

  /** How a transmitter writes `n` in decimal, without leading zeros: the
      reference against which the integer decoder is checked. */
  function Decimal(n: nat): (s: seq<u8>)
    ensures |s| >= 1 && AllDigits(s)
  {
    if n < 10 then [DigitChar(n)] else Decimal(n / 10) + [DigitChar(n % 10)]
  }

  lemma {:induction false} DigitsValueDecimal(n: nat)
    ensures DigitsValue(Decimal(n)) == n
  {
    var s := Decimal(n);
    if n >= 10 {
      assert s[..|s| - 1] == Decimal(n / 10);
      DigitsValueDecimal(n / 10);
    } else {
      assert s[..|s| - 1] == [];
    }
  }

  /** An optionally negative decimal integer: a `-` sign, then the leading
      digits; anything after them is ignored, and a term without digits
      (an elided field) reads as zero. */
  function ParseNumber(t: seq<u8>): int {
    if t != [] && t[0] == MINUS then -(DigitsValue(LeadingDigits(t[1..])) as int)
    else DigitsValue(LeadingDigits(t))
  }

  /** The integer decoder reads back what a transmitter writes. */
  lemma ParseNumberDecimal(n: nat)
    ensures ParseNumber(Decimal(n)) == n
    ensures ParseNumber([MINUS] + Decimal(n)) == -(n as int)
  {
    LeadingDigitsStop(Decimal(n), []);
    assert Decimal(n) + [] == Decimal(n);
    assert ([MINUS] + Decimal(n))[1..] == Decimal(n);
    DigitsValueDecimal(n);
  }

  /** The integer decoder reads any digit string as its value, leading
      zeros included (`08` reads as 8), and its negative after a `-`,
      whatever non-digit text follows. */
  lemma ParseNumberDigits(ds: seq<u8>, rest: seq<u8>)
    requires ds != [] && AllDigits(ds)
    requires rest == [] || !IsDigit(rest[0])
    ensures ParseNumber(ds + rest) == DigitsValue(ds)
    ensures ParseNumber([MINUS] + (ds + rest)) == -(DigitsValue(ds) as int)
  {
    LeadingDigitsStop(ds, rest);
    assert (ds + rest)[0] == ds[0];
    assert ([MINUS] + (ds + rest))[1..] == ds + rest;
  }

  // ---------------------------------------------------------------------
  // Decimal numbers with a fraction

  function Pow10(k: nat): (r: nat)
    ensures r >= 1
  {
    if k == 0 then 1 else 10 * Pow10(k - 1)
  }

  /** The value of `ip.fp` for digit strings `ip` and `fp`. */
  function DecimalValue(ip: seq<u8>, fp: seq<u8>): real
    requires AllDigits(ip) && AllDigits(fp)
  {
    DigitsValue(ip) as real + DigitsValue(fp) as real / Pow10(|fp|) as real
  }

  /** The fraction digits after the integer digits of `t`, if a `.` follows. */
  function FractionDigits(t: seq<u8>): (r: seq<u8>)
    ensures AllDigits(r)
  {
    var ip := LeadingDigits(t);
    if |ip| < |t| && t[|ip|] == DOT then LeadingDigits(t[|ip| + 1..]) else []
  }

  function UnsignedReal(t: seq<u8>): real {
    DecimalValue(LeadingDigits(t), FractionDigits(t))
  }

  /** An optionally negative decimal number with an optional fraction
      (`-12.5`, `022.4`, `545`); an elided field reads as zero. */
  function ParseReal(t: seq<u8>): real {
    if t != [] && t[0] == MINUS then -UnsignedReal(t[1..]) else UnsignedReal(t)
  }

  /** The unsigned part of the decoder reads `ip.fp` as its value. */
  lemma UnsignedRealFraction(ip: seq<u8>, fp: seq<u8>, rest: seq<u8>)
    requires AllDigits(ip) && AllDigits(fp)
    requires rest == [] || !IsDigit(rest[0])
    ensures UnsignedReal(ip + [DOT] + fp + rest) == DecimalValue(ip, fp)
  {
    var t := ip + [DOT] + fp + rest;
    assert LeadingDigits(t) == ip by {
      assert t == ip + ([DOT] + fp + rest);
      LeadingDigitsStop(ip, [DOT] + fp + rest);
    }
    assert FractionDigits(t) == fp by {
      assert t[|ip|] == DOT;
      assert t[|ip| + 1..] == fp + rest;
      LeadingDigitsStop(fp, rest);
    }
  }

  /** The number decoder reads `ip.fp` as its value, and `-ip.fp` as its
      negative, whatever text follows. */
  lemma ParseRealFraction(ip: seq<u8>, fp: seq<u8>, rest: seq<u8>)
    requires AllDigits(ip) && AllDigits(fp)
    requires rest == [] || !IsDigit(rest[0])
    ensures ParseReal(ip + [DOT] + fp + rest) == DecimalValue(ip, fp)
    ensures ParseReal([MINUS] + (ip + [DOT] + fp + rest)) == -DecimalValue(ip, fp)
  {
    var t := ip + [DOT] + fp + rest;
    var u := [MINUS] + t;
    UnsignedRealFraction(ip, fp, rest);
    assert ParseReal(t) == UnsignedReal(t) by {
      if ip == [] {
        assert t[0] == DOT;
      } else {
        assert t[0] == ip[0] && IsDigit(ip[0]);
      }
    }
    assert ParseReal(u) == -UnsignedReal(t) by {
      assert u[0] == MINUS;
      assert u[1..] == t;
    }
  }

  /** The fraction digits stand for less than one. */
  lemma {:induction false} FractionBelowOne(fp: seq<u8>)
    requires AllDigits(fp)
    ensures DigitsValue(fp) < Pow10(|fp|)
    decreases |fp|
  {
    if fp != [] {
      FractionBelowOne(fp[..|fp| - 1]);
    }
  }

  /** An elided term, or text that starts with no digit, sign or point,
      reads as zero; an empty time or date term reads as 00:00:00. */
  lemma ElidedReadsZero(t: seq<u8>)
    requires t == [] || (!IsDigit(t[0]) && t[0] != MINUS && t[0] != DOT)
    ensures ParseNumber(t) == 0 && ParseReal(t) == 0.0
    ensures t == [] ==> TwoDigitFields(t) == (0, 0, 0)
  {
    assert LeadingDigits(t) == [];
    assert FractionDigits(t) == [];
  }

  /** On a term without a fraction both decoders agree. */
  lemma ParseRealInteger(n: nat)
    ensures ParseReal(Decimal(n)) == n as real == ParseNumber(Decimal(n)) as real
    ensures ParseReal([MINUS] + Decimal(n)) == -(n as real) == ParseNumber([MINUS] + Decimal(n)) as real
  {
    assert ([MINUS] + Decimal(n))[1..] == Decimal(n);
    LeadingDigitsStop(Decimal(n), []);
    assert Decimal(n) + [] == Decimal(n);
    DigitsValueDecimal(n);
    ParseNumberDecimal(n);
  }

  // ---------------------------------------------------------------------
  // Coordinates, two-digit fields, letters

  /** A `ddmm.mmmm` (or `dddmm.mmmm`) coordinate in decimal degrees: the
      hundreds are whole degrees and the rest are minutes. */
  function Coordinate(v: real): real {
    var deg := (v / 100.0).Floor;
    deg as real + (v - 100.0 * deg as real) / 60.0
  }

  /** A coordinate of `d` degrees and `m` minutes reads as `d + m/60`. */
  lemma CoordinateDegreesMinutes(d: nat, m: real)
    requires 0.0 <= m < 100.0
    ensures Coordinate(100.0 * d as real + m) == d as real + m / 60.0
  {
    var v := 100.0 * d as real + m;
    assert v / 100.0 == d as real + m / 100.0;
    assert (v / 100.0).Floor == d;
  }

  /** The digit at position `i` of a fixed-format field; a missing or
      non-digit character reads as zero. */
  function DigitAt(t: seq<u8>, i: nat): (v: nat)
    ensures v < 10
  {
    if i < |t| && IsDigit(t[i]) then DigitValue(t[i]) else 0
  }

  /** The three two-digit numbers of an `hhmmss[.sss]` time or a `ddmmyy`
      date; whatever follows the sixth character is ignored. */
  function TwoDigitFields(t: seq<u8>): (r: (u8, u8, u8))
    ensures r.0 <= 99 && r.1 <= 99 && r.2 <= 99
  {
    ((10 * DigitAt(t, 0) + DigitAt(t, 1)) as u8,
     (10 * DigitAt(t, 2) + DigitAt(t, 3)) as u8,
     (10 * DigitAt(t, 4) + DigitAt(t, 5)) as u8)
  }

  /** How a transmitter writes a number below 100 in two digits. */
  function TwoDigits(x: nat): (s: seq<u8>)
    requires x < 100
    ensures |s| == 2 && AllDigits(s)
  {
    [DigitChar(x / 10), DigitChar(x % 10)]
  }

  /** Time and date fields read back what a transmitter writes, with any
      fraction of a second dropped. */
  lemma TwoDigitFieldsRoundTrip(a: nat, b: nat, c: nat, rest: seq<u8>)
    requires a < 100 && b < 100 && c < 100
    ensures TwoDigitFields(TwoDigits(a) + TwoDigits(b) + TwoDigits(c) + rest) == (a as u8, b as u8, c as u8)
  {
    var t := TwoDigits(a) + TwoDigits(b) + TwoDigits(c) + rest;
    assert t[0] == DigitChar(a / 10) && t[1] == DigitChar(a % 10);
    assert t[2] == DigitChar(b / 10) && t[3] == DigitChar(b % 10);
    assert t[4] == DigitChar(c / 10) && t[5] == DigitChar(c % 10);
  }

  const LETTER_A: u8 := 0x41  // 'A', data valid
  const LETTER_S: u8 := 0x53  // 'S', southern hemisphere
  const LETTER_W: u8 := 0x57  // 'W', western hemisphere / westerly variation

  /** `v` with its sign flipped when the hemisphere term is the letter that
      NMEA 0183 counts negative (`S` for latitude, `W` for longitude and
      magnetic variation). */
  function Hemisphere(v: real, t: seq<u8>, negative: u8): (r: real)
    ensures r == v || r == -v
    ensures (t != [] && t[0] == negative) ==> r == -v
    ensures !(t != [] && t[0] == negative) ==> r == v
  {
    if t != [] && t[0] == negative then -v else v
  }

  /** A whole number splits into its hundreds and the rest. */
  lemma HundredsSplit(n: nat, frac: real)
    ensures n as real + frac == 100.0 * (n / 100) as real + ((n % 100) as real + frac)
  {
    assert n == 100 * (n / 100) + n % 100;
  }

  lemma ProperFraction(a: nat, b: nat)
    requires a < b
    ensures 0.0 <= a as real / b as real < 1.0
  {
  }

  /** The minutes of a `ddmm.mmmm` term: its integer digits below the
      hundreds, plus its fraction. */
  function TermMinutes(ip: seq<u8>, fp: seq<u8>): real
    requires AllDigits(ip) && AllDigits(fp)
  {
    (DigitsValue(ip) % 100) as real + DigitsValue(fp) as real / Pow10(|fp|) as real
  }

  /** A `ddmm.mmmm` term reads as its degrees plus its minutes over 60, with
      the minutes below 100. */
  lemma CoordinateTerm(ip: seq<u8>, fp: seq<u8>)
    requires AllDigits(ip) && AllDigits(fp)
    ensures 0.0 <= TermMinutes(ip, fp) < 100.0
    ensures Coordinate(ParseReal(ip + [DOT] + fp))
         == (DigitsValue(ip) / 100) as real + TermMinutes(ip, fp) / 60.0
  {
    var n := DigitsValue(ip);
    var frac := DigitsValue(fp) as real / Pow10(|fp|) as real;
    var v := ParseReal(ip + [DOT] + fp);
    assert v == n as real + frac by {
      ParseRealTerm(ip, fp);
    }
    assert 0.0 <= frac < 1.0 by {
      FractionBelowOne(fp);
      ProperFraction(DigitsValue(fp), Pow10(|fp|));
    }
    assert TermMinutes(ip, fp) == (n % 100) as real + frac;
    CoordinateSplit(n, frac);
  }

  /** A number with integer part `n` and fraction `frac` as a coordinate. */
  lemma CoordinateSplit(n: nat, frac: real)
    requires 0.0 <= frac < 1.0
    ensures Coordinate(n as real + frac) == (n / 100) as real + ((n % 100) as real + frac) / 60.0
  {
    HundredsSplit(n, frac);
    CoordinateDegreesMinutes(n / 100, (n % 100) as real + frac);
  }

  /** `ParseRealFraction` for a term that ends after its fraction. */
  lemma ParseRealTerm(ip: seq<u8>, fp: seq<u8>)
    requires AllDigits(ip) && AllDigits(fp)
    ensures ParseReal(ip + [DOT] + fp) == DecimalValue(ip, fp)
  {
    ParseRealFraction(ip, fp, []);
    assert ip + [DOT] + fp + [] == ip + [DOT] + fp;
  }

  /** A `ddmm.mmmm` term and its hemisphere letter read as signed decimal
      degrees: the hundreds of the integer digits are degrees, the rest and
      the fraction are minutes, and the result is negative exactly for the
      letter counted negative. */
  lemma SignedCoordinate(ip: seq<u8>, fp: seq<u8>, letter: u8, negative: u8)
    requires AllDigits(ip) && AllDigits(fp)
    ensures 0.0 <= TermMinutes(ip, fp) < 100.0
    ensures Hemisphere(Coordinate(ParseReal(ip + [DOT] + fp)), [letter], negative)
         == var v := (DigitsValue(ip) / 100) as real + TermMinutes(ip, fp) / 60.0;
            if letter == negative then -v else v
  {
    CoordinateTerm(ip, fp);
  }

  /** The status term: `A` means valid (1); `V` or anything else invalid (0). */
  function Status(t: seq<u8>): (r: u8)
    ensures r == 1 || r == 0
    ensures r == 1 <==> t != [] && t[0] == LETTER_A
  {
    if t != [] && t[0] == LETTER_A then 1 else 0
  }
}
