/** The statement dispatcher and the four field decoders. A decoder takes
    a term's position in the sentence and its text and writes the staging
    area of its statement; positions follow the NMEA 0183 field order of
    each sentence. */
module Decoders {
  import opened Bytes
  import opened Terms
  import opened Record

  /** The first term of a sentence selects its decoder: one of the four
      supported statements when it is compiled in, otherwise `Unknown`. */
  function Dispatch(cfg: Config, id: seq<u8>): (st: Stat)
    ensures st != Idle && Selectable(cfg, st)
    ensures st == GGA <==> cfg.gga && id == Ascii("GPGGA")
    ensures st == GSA <==> cfg.gsa && id == Ascii("GPGSA")
    ensures st == GSV <==> cfg.gsv && id == Ascii("GPGSV")
    ensures st == RMC <==> cfg.rmc && id == Ascii("GPRMC")
  {
    StatementIdsDistinct();
    if cfg.gga && id == Ascii("GPGGA") then GGA
    else if cfg.gsa && id == Ascii("GPGSA") then GSA
    else if cfg.gsv && id == Ascii("GPGSV") then GSV
    else if cfg.rmc && id == Ascii("GPRMC") then RMC
    else Unknown
  }

  /** In the default build every statement is compiled in, so each
      identifier selects its statement and every statement index can occur. */
  lemma DefaultBuildSelectsAll()
    ensures Dispatch(DEFAULT_CONFIG, Ascii("GPGGA")) == GGA
    ensures Dispatch(DEFAULT_CONFIG, Ascii("GPGSA")) == GSA
    ensures Dispatch(DEFAULT_CONFIG, Ascii("GPGSV")) == GSV
    ensures Dispatch(DEFAULT_CONFIG, Ascii("GPRMC")) == RMC
    ensures forall st: Stat :: Selectable(DEFAULT_CONFIG, st)
  {
  }

  /** The four statement identifiers differ from each other. */
  lemma StatementIdsDistinct()
    ensures Ascii("GPGGA") != Ascii("GPGSA") && Ascii("GPGGA") != Ascii("GPGSV")
    ensures Ascii("GPGGA") != Ascii("GPRMC") && Ascii("GPGSA") != Ascii("GPGSV")
    ensures Ascii("GPGSA") != Ascii("GPRMC") && Ascii("GPGSV") != Ascii("GPRMC")
  {
    assert Ascii("GPGGA")[3] == 0x47 && Ascii("GPGSA")[3] == 0x53 && Ascii("GPGSV")[3] == 0x53;
    assert Ascii("GPGSA")[4] == 0x41 && Ascii("GPGSV")[4] == 0x56;
    assert Ascii("GPRMC")[2] == 0x52 && Ascii("GPGGA")[2] == 0x47;
  }

  /** GGA: 1 UTC time, 2-3 latitude and N/S, 4-5 longitude and E/W, 6 fix
      quality, 7 satellites in use, 9 altitude. */
  function GgaTerm(g: Gga, n: nat, t: seq<u8>): Gga {
    match n
    case 1 =>
      var (h, m, s) := TwoDigitFields(t);
      g.(hours := h, minutes := m, seconds := s)
    case 2 => g.(latitude := Coordinate(ParseReal(t)))
    case 3 => g.(latitude := Hemisphere(g.latitude, t, LETTER_S))
    case 4 => g.(longitude := Coordinate(ParseReal(t)))
    case 5 => g.(longitude := Hemisphere(g.longitude, t, LETTER_W))
    case 6 => g.(fix := ToU8(ParseNumber(t)))
    case 7 => g.(satsInUse := ToU8(ParseNumber(t)))
    case 9 => g.(altitude := ParseReal(t))
    case _ => g
  }

  /** GSA: 2 fix mode, 3-14 one satellite ID each, 15 PDOP, 16 HDOP,
      17 VDOP. Slot `n - 3` is written only for positions 3 to 14. */
  function GsaTerm(g: Gsa, n: nat, t: seq<u8>): (r: Gsa)
    // At most one of the twelve slots is written, the one of position `n`.
    ensures forall j :: 0 <= j < SAT_SLOTS && j != n - 3 ==> r.satelliteIds[j] == g.satelliteIds[j]
    ensures 3 <= n <= 14 ==> r.satelliteIds[n - 3] == ToU8(ParseNumber(t))
  {
    if n == 2 then g.(fixMode := ToU8(ParseNumber(t)))
    else if 3 <= n <= 14 then g.(satelliteIds := g.satelliteIds[n - 3 := ToU8(ParseNumber(t))])
    else if n == 15 then g.(dopP := ParseReal(t))
    else if n == 16 then g.(dopH := ParseReal(t))
    else if n == 17 then g.(dopV := ParseReal(t))
    else g
  }

  /** GSV: 3 satellites in view. */
  function GsvTerm(g: Gsv, n: nat, t: seq<u8>): Gsv {
    if n == 3 then g.(satsInView := ToU8(ParseNumber(t))) else g
  }

  /** RMC: 2 status, 7 speed in knots, 8 course, 9 date, 10-11 magnetic
      variation and E/W. Time and position (1, 3-6) have no RMC field. */
  function RmcTerm(g: Rmc, n: nat, t: seq<u8>): Rmc {
    match n
    case 2 => g.(isValid := Status(t))
    case 7 => g.(speed := ParseReal(t))
    case 8 => g.(course := ParseReal(t))
    case 9 =>
      var (d, m, y) := TwoDigitFields(t);
      g.(date := d, month := m, year := y)
    case 10 => g.(variation := ParseReal(t))
    case 11 => g.(variation := Hemisphere(g.variation, t, LETTER_W))
    case _ => g
  }

  /** Term `n` (after the first) written into the live staging area. */
  function DecodeTerm(d: Staging, n: nat, t: seq<u8>): (r: Staging)
    ensures forall st :: Selects(st, d) ==> Selects(st, r)
  {
    match d
    case NoData => NoData
    case GgaData(g) => GgaData(GgaTerm(g, n, t))
    case GsaData(g) => GsaData(GsaTerm(g, n, t))
    case GsvData(g) => GsvData(GsvTerm(g, n, t))
    case RmcData(g) => RmcData(RmcTerm(g, n, t))
  }

  /** The staging area after the terms `ts`, the first at position `n`,
      each as the bounded term buffer holds it. */
  function DecodeFrom(d: Staging, n: nat, ts: seq<seq<u8>>): Staging
    decreases |ts|
  {
    if ts == [] then d else DecodeFrom(DecodeTerm(d, n, Keep(ts[0])), n + 1, ts[1..])
  }

  /** What a sentence whose first term is `id` and whose further terms are
      `ts` stages: the cleared area of its statement, then every term
      decoded in order. */
  function Decoded(cfg: Config, id: seq<u8>, ts: seq<seq<u8>>): Staging {
    DecodeFrom(Empty(Dispatch(cfg, Keep(id))), 1, ts)
  }
}
