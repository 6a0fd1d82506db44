/** The public fix record of `gps_t`, one value per statement family, the
    staging areas that mirror those families, the statement index and the
    build-time statement switches. */
module Record {
  import opened Bytes

  /** Both the public record and the GSA staging area hold 12 satellite IDs. */
  const SAT_SLOTS: nat := 12

  type SatIds = s: seq<u8> | |s| == SAT_SLOTS witness [0, 0, 0, 0, 0, 0, 0, 0, 0, 0, 0, 0]

  /** GGA (fix data): position in degrees, altitude in metres, satellites
      in use, fix quality and UTC time of the fix. */
  datatype Gga = Gga(latitude: real, longitude: real, altitude: real,
                     satsInUse: u8, fix: u8, hours: u8, minutes: u8, seconds: u8)

  /** GSA (active satellites): dilutions of precision, fix mode and the IDs
      of the satellites used. */
  datatype Gsa = Gsa(dopH: real, dopV: real, dopP: real, fixMode: u8, satelliteIds: SatIds)

  /** GSV (satellites in view): their number. */
  datatype Gsv = Gsv(satsInView: u8)

  /** RMC (recommended minimum): status, speed in knots, course over ground,
      magnetic variation and date of the fix. */
  datatype Rmc = Rmc(isValid: u8, date: u8, month: u8, year: u8,
                     speed: real, course: real, variation: real)

  /** The public part of `gps_t`: one block per statement family. */
  datatype Fix = Fix(gga: Gga, gsa: Gsa, gsv: Gsv, rmc: Rmc)

  /** The staging union of the private state: at most one family's area is
      live, the one of the statement being parsed; each area has exactly the
      fields of its public block. */
  datatype Staging = NoData | GgaData(gga: Gga) | GsaData(gsa: Gsa) | GsvData(gsv: Gsv) | RmcData(rmc: Rmc)

  const ZERO_GGA := Gga(0.0, 0.0, 0.0, 0, 0, 0, 0, 0)
  const ZERO_GSA := Gsa(0.0, 0.0, 0.0, 0, [0, 0, 0, 0, 0, 0, 0, 0, 0, 0, 0, 0])
  const ZERO_GSV := Gsv(0)
  const ZERO_RMC := Rmc(0, 0, 0, 0, 0.0, 0.0, 0.0)
  /** The record as `gps_init` leaves it: every field zero. */
  const ZERO_FIX := Fix(ZERO_GGA, ZERO_GSA, ZERO_GSV, ZERO_RMC)

  /** The statement index: `Idle` between sentences, `Unknown` for a
      sentence whose first term is not (yet) a supported statement, or the
      supported statement being parsed. */
  datatype Stat = Idle | Unknown | GGA | GSA | GSV | RMC

  /** The build-time switches that compile each statement in or out. */
  datatype Config = Config(gga: bool, gsa: bool, gsv: bool, rmc: bool)

  const GPGGA_ENABLED := true
  const GPGSA_ENABLED := true
  const GPRMC_ENABLED := true
  const GPGSV_ENABLED := true
  /** The switches as the header sets them by default. */
  const DEFAULT_CONFIG := Config(GPGGA_ENABLED, GPGSA_ENABLED, GPGSV_ENABLED, GPRMC_ENABLED)

  /** The statement indexes a configuration can select. */
  predicate Selectable(cfg: Config, st: Stat) {
    match st
    case Idle => true
    case Unknown => true
    case GGA => cfg.gga
    case GSA => cfg.gsa
    case GSV => cfg.gsv
    case RMC => cfg.rmc
  }

  /** `d` is the staging area that the statement index `st` selects. */
  predicate Selects(st: Stat, d: Staging) {
    match st
    case Idle => d == NoData
    case Unknown => d == NoData
    case GGA => d.GgaData?
    case GSA => d.GsaData?
    case GSV => d.GsvData?
    case RMC => d.RmcData?
  }

  /** The cleared staging area of statement `st`. */
  function Empty(st: Stat): (d: Staging)
    ensures Selects(st, d)
  {
    match st
    case GGA => GgaData(ZERO_GGA)
    case GSA => GsaData(ZERO_GSA)
    case GSV => GsvData(ZERO_GSV)
    case RMC => RmcData(ZERO_RMC)
    case _ => NoData
  }

  /** Copies a staging area into the public record: its family is replaced
      as a whole, every other family is left as it was. */
  function Commit(fix: Fix, d: Staging): (r: Fix)
    ensures r.gga == (if d.GgaData? then d.gga else fix.gga)
    ensures r.gsa == (if d.GsaData? then d.gsa else fix.gsa)
    ensures r.gsv == (if d.GsvData? then d.gsv else fix.gsv)
    ensures r.rmc == (if d.RmcData? then d.rmc else fix.rmc)
  {
    match d
    case NoData => fix
    case GgaData(g) => fix.(gga := g)
    case GsaData(g) => fix.(gsa := g)
    case GsvData(g) => fix.(gsv := g)
    case RmcData(g) => fix.(rmc := g)
  }

  /** Committing the same staging area twice leaves what committing it once
      leaves. */
  lemma CommitIdempotent(fix: Fix, d: Staging)
    ensures Commit(Commit(fix, d), d) == Commit(fix, d)
  {
  }

  /** `gps_is_valid`: the RMC status when RMC is compiled in, else 0. */
  function IsValid(cfg: Config, fix: Fix): u8 {
    if cfg.rmc then fix.rmc.isValid else 0
  }
}
