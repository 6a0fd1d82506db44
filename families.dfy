/** What a sentence of each supported statement puts into its family of
    the public record, term by term, under the decoding conversions; and
    what `gps_is_valid` reports after an RMC sentence. */
module Families {
  import opened Bytes
  import opened Terms
  import opened Record
  import opened Decoders
  import opened Machine
  import opened Sentences

  lemma Peel(d: Staging, n: nat, ts: seq<seq<u8>>)
    requires ts != []
    ensures DecodeFrom(d, n, ts) == DecodeFrom(DecodeTerm(d, n, Keep(ts[0])), n + 1, ts[1..])
  {
  }

  lemma {:induction false} DecodeFromAppend(d: Staging, n: nat, a: seq<seq<u8>>, b: seq<seq<u8>>)
    ensures DecodeFrom(d, n, a + b) == DecodeFrom(DecodeFrom(d, n, a), n + |a|, b)
    decreases |a|
  {
    if a == [] {
      assert a + b == b;
    } else {
      assert (a + b)[0] == a[0];
      assert (a + b)[1..] == a[1..] + b;
      DecodeFromAppend(DecodeTerm(d, n, Keep(a[0])), n + 1, a[1..], b);
    }
  }

  /** Terms past the last one a statement uses are ignored. */
  lemma {:induction false} LaterTermsIgnored(d: Staging, n: nat, ts: seq<seq<u8>>)
    requires (d.GgaData? && n >= 10) || (d.GsaData? && n >= 18) || (d.GsvData? && n >= 4) || (d.RmcData? && n >= 12)
    ensures DecodeFrom(d, n, ts) == d
    decreases |ts|
  {
    if ts != [] {
      LaterTermsIgnored(d, n + 1, ts[1..]);
    }
  }

  /** Keeping the first `k` terms decoded and the rest ignored. */
  lemma Split(d: Staging, ts: seq<seq<u8>>, k: nat)
    requires k <= |ts|
    requires (d.GgaData? && k == 9) || (d.GsaData? && k == 17) || (d.GsvData? && k == 3) || (d.RmcData? && k == 11)
    ensures DecodeFrom(d, 1, ts) == DecodeFrom(d, 1, ts[..k])
  {
    assert ts == ts[..k] + ts[k..];
    DecodeFromAppend(d, 1, ts[..k], ts[k..]);
    var e := DecodeFrom(d, 1, ts[..k]);
    assert e.GgaData? == d.GgaData? && e.GsaData? == d.GsaData? && e.GsvData? == d.GsvData? && e.RmcData? == d.RmcData? by {
      forall st | Selects(st, d) ensures Selects(st, e) {
        DecodeFromSelects(st, d, 1, ts[..k]);
      }
      if d.GgaData? { assert Selects(GGA, d); }
      if d.GsaData? { assert Selects(GSA, d); }
      if d.GsvData? { assert Selects(GSV, d); }
      if d.RmcData? { assert Selects(RMC, d); }
    }
    LaterTermsIgnored(e, 1 + k, ts[k..]);
  }

  lemma {:induction false} DecodeFromSelects(st: Stat, d: Staging, n: nat, ts: seq<seq<u8>>)
    requires Selects(st, d)
    ensures Selects(st, DecodeFrom(d, n, ts))
    decreases |ts|
  {
    if ts != [] {
      DecodeFromSelects(st, DecodeTerm(d, n, Keep(ts[0])), n + 1, ts[1..]);
    }
  }

  /** A GGA sentence sets latitude and longitude from terms 2 to 5 in signed
      decimal degrees, the fix quality from term 6, the satellites in use
      from term 7, the altitude from term 9 and the UTC time from term 1. */
  lemma GgaSentence(cfg: Config, ts: seq<seq<u8>>)
    requires cfg.gga && |ts| >= 9
    ensures Decoded(cfg, Ascii("GPGGA"), ts) == GgaData(Gga(
              latitude := Hemisphere(Coordinate(ParseReal(Keep(ts[1]))), Keep(ts[2]), LETTER_S),
              longitude := Hemisphere(Coordinate(ParseReal(Keep(ts[3]))), Keep(ts[4]), LETTER_W),
              altitude := ParseReal(Keep(ts[8])),
              satsInUse := ToU8(ParseNumber(Keep(ts[6]))),
              fix := ToU8(ParseNumber(Keep(ts[5]))),
              hours := TwoDigitFields(Keep(ts[0])).0,
              minutes := TwoDigitFields(Keep(ts[0])).1,
              seconds := TwoDigitFields(Keep(ts[0])).2))
  {
    assert Keep(Ascii("GPGGA")) == Ascii("GPGGA");
    Split(GgaData(ZERO_GGA), ts, 9);
    var g1 := GgaTerm(ZERO_GGA, 1, Keep(ts[0]));
    Peel(GgaData(ZERO_GGA), 1, ts[0..9]);
    var g2 := GgaTerm(g1, 2, Keep(ts[1]));
    Peel(GgaData(g1), 2, ts[1..9]);
    var g3 := GgaTerm(g2, 3, Keep(ts[2]));
    Peel(GgaData(g2), 3, ts[2..9]);
    var g4 := GgaTerm(g3, 4, Keep(ts[3]));
    Peel(GgaData(g3), 4, ts[3..9]);
    var g5 := GgaTerm(g4, 5, Keep(ts[4]));
    Peel(GgaData(g4), 5, ts[4..9]);
    var g6 := GgaTerm(g5, 6, Keep(ts[5]));
    Peel(GgaData(g5), 6, ts[5..9]);
    var g7 := GgaTerm(g6, 7, Keep(ts[6]));
    Peel(GgaData(g6), 7, ts[6..9]);
    var g8 := GgaTerm(g7, 8, Keep(ts[7]));
    Peel(GgaData(g7), 8, ts[7..9]);
    var g9 := GgaTerm(g8, 9, Keep(ts[8]));
    Peel(GgaData(g8), 9, ts[8..9]);
  }

  /** The satellite ID the term `t` gives. */
  function SatId(t: seq<u8>): u8 {
    ToU8(ParseNumber(Keep(t)))
  }

  /** The twelve satellite IDs of terms 3 to 14 (`ts[2]` to `ts[13]`). */
  function SatIdsOf(ts: seq<seq<u8>>): SatIds
    requires |ts| >= 14
  {
    seq(SAT_SLOTS, i requires 0 <= i < SAT_SLOTS => SatId(ts[i + 2]))
  }

  /** Terms 3 to 14 of a GSA sentence fill the twelve ID slots in order:
      after the first `k` of them, slots below `k` hold their IDs. */
  lemma {:induction false} GsaIdTerms(g: Gsa, k: nat, us: seq<seq<u8>>)
    requires k + |us| == SAT_SLOTS
    ensures var r := DecodeFrom(GsaData(g), 3 + k, us);
      r.GsaData? && r.gsa == g.(satelliteIds := r.gsa.satelliteIds)
      && (forall j :: 0 <= j < k ==> r.gsa.satelliteIds[j] == g.satelliteIds[j])
      && (forall j :: 0 <= j < |us| ==> r.gsa.satelliteIds[k + j] == SatId(us[j]))
    decreases |us|
  {
    if us != [] {
      Peel(GsaData(g), 3 + k, us);
      var g1 := GsaTerm(g, 3 + k, Keep(us[0]));
      assert g1 == g.(satelliteIds := g.satelliteIds[k := SatId(us[0])]);
      GsaIdTerms(g1, k + 1, us[1..]);
      var r := DecodeFrom(GsaData(g), 3 + k, us);
      forall j | 0 <= j < |us|
        ensures r.gsa.satelliteIds[k + j] == SatId(us[j])
      {
        if j > 0 {
          assert us[1..][j - 1] == us[j];
        }
      }
    }
  }

  /** Terms 1 and 2 of a GSA sentence: only the fix mode is kept. */
  lemma GsaHeadTerms(a: seq<seq<u8>>)
    requires |a| == 2
    ensures DecodeFrom(GsaData(ZERO_GSA), 1, a) == GsaData(ZERO_GSA.(fixMode := ToU8(ParseNumber(Keep(a[1])))))
  {
    Peel(GsaData(ZERO_GSA), 1, a);
    Peel(GsaData(GsaTerm(ZERO_GSA, 1, Keep(a[0]))), 2, a[1..]);
  }

  /** Terms 15 to 17 of a GSA sentence: PDOP, HDOP and VDOP. */
  lemma GsaDopTerms(g: Gsa, c: seq<seq<u8>>)
    requires |c| == 3
    ensures DecodeFrom(GsaData(g), 15, c)
         == GsaData(g.(dopP := ParseReal(Keep(c[0])), dopH := ParseReal(Keep(c[1])), dopV := ParseReal(Keep(c[2]))))
  {
    var g15 := GsaTerm(g, 15, Keep(c[0]));
    Peel(GsaData(g), 15, c);
    var g16 := GsaTerm(g15, 16, Keep(c[1]));
    Peel(GsaData(g15), 16, c[1..]);
    Peel(GsaData(g16), 17, c[2..]);
  }

  /** The twelve ID terms, decoded into a staging area whose fix mode is set. */
  lemma GsaIdsFilled(g: Gsa, ts: seq<seq<u8>>)
    requires |ts| == 17
    ensures DecodeFrom(GsaData(g), 3, ts[2..14]) == GsaData(g.(satelliteIds := SatIdsOf(ts)))
  {
    var b := ts[2..14];
    GsaIdTerms(g, 0, b);
    var r := DecodeFrom(GsaData(g), 3, b);
    forall j | 0 <= j < SAT_SLOTS
      ensures r.gsa.satelliteIds[j] == SatIdsOf(ts)[j]
    {
      assert r.gsa.satelliteIds[0 + j] == SatId(b[j]);
    }
    assert r.gsa.satelliteIds == SatIdsOf(ts);
  }

  /** The staging area after the seventeen terms a GSA sentence uses. */
  lemma GsaTerms(ts: seq<seq<u8>>)
    requires |ts| == 17
    ensures DecodeFrom(GsaData(ZERO_GSA), 1, ts) == GsaData(Gsa(
              dopH := ParseReal(Keep(ts[15])),
              dopV := ParseReal(Keep(ts[16])),
              dopP := ParseReal(Keep(ts[14])),
              fixMode := ToU8(ParseNumber(Keep(ts[1]))),
              satelliteIds := SatIdsOf(ts)))
  {
    var a, b, c := ts[..2], ts[2..14], ts[14..17];
    var g2 := ZERO_GSA.(fixMode := ToU8(ParseNumber(Keep(ts[1]))));
    var g14 := g2.(satelliteIds := SatIdsOf(ts));
    assert DecodeFrom(GsaData(ZERO_GSA), 1, ts) == DecodeFrom(DecodeFrom(GsaData(ZERO_GSA), 1, a), 3, b + c) by {
      assert ts == a + (b + c);
      DecodeFromAppend(GsaData(ZERO_GSA), 1, a, b + c);
    }
    assert DecodeFrom(GsaData(ZERO_GSA), 1, a) == GsaData(g2) by {
      GsaHeadTerms(a);
    }
    assert DecodeFrom(GsaData(g2), 3, b + c) == DecodeFrom(GsaData(g14), 15, c) by {
      DecodeFromAppend(GsaData(g2), 3, b, c);
      GsaIdsFilled(g2, ts);
    }
    assert c[0] == ts[14] && c[1] == ts[15] && c[2] == ts[16];
    GsaDopTerms(g14, c);
  }

  /** Only the first seventeen terms matter to the IDs. */
  lemma SatIdsOfPrefix(ts: seq<seq<u8>>)
    requires |ts| >= 17
    ensures SatIdsOf(ts[..17]) == SatIdsOf(ts)
  {
    forall j | 0 <= j < SAT_SLOTS
      ensures SatIdsOf(ts[..17])[j] == SatIdsOf(ts)[j]
    {
      assert ts[..17][j + 2] == ts[j + 2];
    }
  }

  /** The statement identifiers select their statement when it is compiled in. */
  lemma StatementSelected(cfg: Config)
    ensures cfg.gga ==> Dispatch(cfg, Keep(Ascii("GPGGA"))) == GGA
    ensures cfg.gsa ==> Dispatch(cfg, Keep(Ascii("GPGSA"))) == GSA
    ensures cfg.gsv ==> Dispatch(cfg, Keep(Ascii("GPGSV"))) == GSV
    ensures cfg.rmc ==> Dispatch(cfg, Keep(Ascii("GPRMC"))) == RMC
  {
    assert Keep(Ascii("GPGGA")) == Ascii("GPGGA");
    assert Keep(Ascii("GPGSA")) == Ascii("GPGSA");
    assert Keep(Ascii("GPGSV")) == Ascii("GPGSV");
    assert Keep(Ascii("GPRMC")) == Ascii("GPRMC");
  }

  /** A GSA sentence sets the fix mode from term 2, satellite slot `i` from
      term `i + 3` for the twelve slots, and PDOP, HDOP and VDOP from terms
      15, 16 and 17. */
  lemma GsaSentence(cfg: Config, ts: seq<seq<u8>>)
    requires cfg.gsa && |ts| >= 17
    ensures Decoded(cfg, Ascii("GPGSA"), ts) == GsaData(Gsa(
              dopH := ParseReal(Keep(ts[15])),
              dopV := ParseReal(Keep(ts[16])),
              dopP := ParseReal(Keep(ts[14])),
              fixMode := ToU8(ParseNumber(Keep(ts[1]))),
              satelliteIds := SatIdsOf(ts)))
  {
    StatementSelected(cfg);
    assert Decoded(cfg, Ascii("GPGSA"), ts) == DecodeFrom(GsaData(ZERO_GSA), 1, ts);
    Split(GsaData(ZERO_GSA), ts, 17);
    GsaTerms(ts[..17]);
    SatIdsOfPrefix(ts);
  }

  /** An elided satellite ID term leaves its slot 0. */
  lemma GsaEmptySlot(cfg: Config, ts: seq<seq<u8>>, i: nat)
    requires cfg.gsa && |ts| >= 17 && i < SAT_SLOTS && ts[i + 2] == []
    ensures Decoded(cfg, Ascii("GPGSA"), ts).GsaData?
    ensures Decoded(cfg, Ascii("GPGSA"), ts).gsa.satelliteIds[i] == 0
  {
    var d := Decoded(cfg, Ascii("GPGSA"), ts);
    assert d.GsaData? && d.gsa.satelliteIds == SatIdsOf(ts) by {
      GsaSentence(cfg, ts);
    }
    assert SatIdsOf(ts)[i] == SatId([]);
    assert SatId([]) == 0 by {
      assert Keep([]) == [] && LeadingDigits([]) == [];
    }
  }

  /** A GSV sentence sets the number of satellites in view from term 3. */
  lemma GsvSentence(cfg: Config, ts: seq<seq<u8>>)
    requires cfg.gsv && |ts| >= 3
    ensures Decoded(cfg, Ascii("GPGSV"), ts) == GsvData(Gsv(ToU8(ParseNumber(Keep(ts[2])))))
  {
    assert Keep(Ascii("GPGSV")) == Ascii("GPGSV");
    Split(GsvData(ZERO_GSV), ts, 3);
    var g1 := GsvTerm(ZERO_GSV, 1, Keep(ts[0]));
    Peel(GsvData(ZERO_GSV), 1, ts[0..3]);
    var g2 := GsvTerm(g1, 2, Keep(ts[1]));
    Peel(GsvData(g1), 2, ts[1..3]);
    var g3 := GsvTerm(g2, 3, Keep(ts[2]));
    Peel(GsvData(g2), 3, ts[2..3]);
  }

  /** An RMC sentence sets the status from term 2, speed and course from
      terms 7 and 8, the date from term 9 and the signed magnetic variation
      from terms 10 and 11. */
  lemma RmcSentence(cfg: Config, ts: seq<seq<u8>>)
    requires cfg.rmc && |ts| >= 11
    ensures Decoded(cfg, Ascii("GPRMC"), ts) == RmcData(Rmc(
              isValid := Status(Keep(ts[1])),
              date := TwoDigitFields(Keep(ts[8])).0,
              month := TwoDigitFields(Keep(ts[8])).1,
              year := TwoDigitFields(Keep(ts[8])).2,
              speed := ParseReal(Keep(ts[6])),
              course := ParseReal(Keep(ts[7])),
              variation := Hemisphere(ParseReal(Keep(ts[9])), Keep(ts[10]), LETTER_W)))
  {
    assert Keep(Ascii("GPRMC")) == Ascii("GPRMC");
    Split(RmcData(ZERO_RMC), ts, 11);
    var g1 := RmcTerm(ZERO_RMC, 1, Keep(ts[0]));
    Peel(RmcData(ZERO_RMC), 1, ts[0..11]);
    var g2 := RmcTerm(g1, 2, Keep(ts[1]));
    Peel(RmcData(g1), 2, ts[1..11]);
    var g3 := RmcTerm(g2, 3, Keep(ts[2]));
    Peel(RmcData(g2), 3, ts[2..11]);
    var g4 := RmcTerm(g3, 4, Keep(ts[3]));
    Peel(RmcData(g3), 4, ts[3..11]);
    var g5 := RmcTerm(g4, 5, Keep(ts[4]));
    Peel(RmcData(g4), 5, ts[4..11]);
    var g6 := RmcTerm(g5, 6, Keep(ts[5]));
    Peel(RmcData(g5), 6, ts[5..11]);
    var g7 := RmcTerm(g6, 7, Keep(ts[6]));
    Peel(RmcData(g6), 7, ts[6..11]);
    var g8 := RmcTerm(g7, 8, Keep(ts[7]));
    Peel(RmcData(g7), 8, ts[7..11]);
    var g9 := RmcTerm(g8, 9, Keep(ts[8]));
    Peel(RmcData(g8), 9, ts[8..11]);
    var g10 := RmcTerm(g9, 10, Keep(ts[9]));
    Peel(RmcData(g9), 10, ts[9..11]);
    var g11 := RmcTerm(g10, 11, Keep(ts[10]));
    Peel(RmcData(g10), 11, ts[10..11]);
  }

  /** The four statement identifiers contain no delimiter. */
  lemma StatementIdsPlain()
    ensures Plain(Ascii("GPGGA")) && Plain(Ascii("GPGSA")) && Plain(Ascii("GPGSV")) && Plain(Ascii("GPRMC"))
  {
    assert Ascii("GPGGA") == [0x47, 0x50, 0x47, 0x47, 0x41];
    assert Ascii("GPGSA") == [0x47, 0x50, 0x47, 0x53, 0x41];
    assert Ascii("GPGSV") == [0x47, 0x50, 0x47, 0x53, 0x56];
    assert Ascii("GPRMC") == [0x47, 0x50, 0x52, 0x4D, 0x43];
  }

  /** After a well-formed RMC sentence `gps_is_valid` reports 1 exactly when
      its status term starts with `A`. */
  lemma ValidityReported(cfg: Config, s: State, ts: seq<seq<u8>>)
    requires cfg.rmc && AllPlain(ts) && 11 <= |ts| <= 254
    ensures IsValid(cfg, Run(cfg, s, WellFormed(Ascii("GPRMC"), ts)).fix) == Status(Keep(ts[1]))
    ensures IsValid(cfg, Run(cfg, s, WellFormed(Ascii("GPRMC"), ts)).fix) == 1 <==> ts[1] != [] && ts[1][0] == LETTER_A
  {
    StatementIdsPlain();
    WellFormedCommits(cfg, s, Ascii("GPRMC"), ts);
    RmcSentence(cfg, ts);
  }

  /** A number below 1000 has at most three digits, so it fits the term
      buffer whole. */
  lemma {:induction false} DecimalShort(n: nat)
    requires n < 1000
    ensures |Decimal(n)| <= 3
  {
    if n >= 10 {
      DecimalShort(n / 10);
      if n / 10 >= 10 {
        assert n / 10 / 10 < 10;
      }
    }
  }

  /** A number below 256 written in decimal reads back as that byte. */
  lemma ByteDecimal(n: nat)
    requires n < 256
    ensures ToU8(ParseNumber(Keep(Decimal(n)))) as int == n
  {
    DecimalShort(n);
    ParseNumberDecimal(n);
  }

  /** The fix quality is stored as received: a GGA sentence whose term 6 is
      any number below 256 puts that number in `fix`, also outside the
      documented range 0 to 3. */
  lemma FixQualityNotRangeChecked(cfg: Config, s: State, ts: seq<seq<u8>>, n: nat)
    requires cfg.gga && AllPlain(ts) && 9 <= |ts| <= 254
    requires n < 256 && ts[5] == Decimal(n)
    ensures Run(cfg, s, WellFormed(Ascii("GPGGA"), ts)).fix.gga.fix as int == n
  {
    StatementIdsPlain();
    WellFormedCommits(cfg, s, Ascii("GPGGA"), ts);
    GgaSentence(cfg, ts);
    ByteDecimal(n);
  }

  /** The fix mode is stored as received too: a GSA sentence whose term 2 is
      any number below 256 puts that number in `fix_mode`, also outside the
      documented range 1 to 3. */
  lemma FixModeNotRangeChecked(cfg: Config, s: State, ts: seq<seq<u8>>, n: nat)
    requires cfg.gsa && AllPlain(ts) && 17 <= |ts| <= 254
    requires n < 256 && ts[1] == Decimal(n)
    ensures Run(cfg, s, WellFormed(Ascii("GPGSA"), ts)).fix.gsa.fixMode as int == n
  {
    StatementIdsPlain();
    WellFormedCommits(cfg, s, Ascii("GPGSA"), ts);
    GsaSentence(cfg, ts);
    ByteDecimal(n);
  }

  /** An elided numeric term reads as zero: a GGA sentence whose altitude
      term is empty commits altitude 0. */
  lemma ElidedAltitudeZero(cfg: Config, s: State, ts: seq<seq<u8>>)
    requires cfg.gga && AllPlain(ts) && 9 <= |ts| <= 254 && ts[8] == []
    ensures Run(cfg, s, WellFormed(Ascii("GPGGA"), ts)).fix.gga.altitude == 0.0
  {
    StatementIdsPlain();
    WellFormedCommits(cfg, s, Ascii("GPGGA"), ts);
    GgaSentence(cfg, ts);
    assert Keep(ts[8]) == [];
    ElidedReadsZero([]);
  }
}
