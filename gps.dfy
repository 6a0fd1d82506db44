/** The parser instance `gps_t` as a class: the public fix record and the
    private state are fields updated in place, the satellite IDs and the
    term text live in fixed-size arrays, and every method is proved against
    the value model of `Machine` (`Model()` reads the object as a `State`). */
module Gps {
  import opened Bytes
  import opened Terms
  import opened Record
  import opened Decoders
  import opened Machine

  /** `term_str` holds up to 12 characters and a terminating zero. */
  const TERM_STR_SIZE: nat := TERM_CAPACITY + 1

  class Gps {
    /** The statements compiled in. */
    const cfg: Config

    // GGA block of the public record
    var latitude: real
    var longitude: real
    var altitude: real
    var satsInUse: u8
    var fix: u8
    var hours: u8
    var minutes: u8
    var seconds: u8

    // GSA block
    var dopH: real
    var dopV: real
    var dopP: real
    var fixMode: u8
    const satelliteIds: array<u8>

    // GSV block
    var satsInView: u8

    // RMC block
    var isValid: u8
    var speed: real
    var course: real
    var variation: real
    var date: u8
    var month: u8
    var year: u8

    // Private parser state
    var stat: Stat
    const termStr: array<u8>
    var termPos: nat
    var termNum: u8
    var star: bool
    var crcCalc: u8
    var data: Staging

    /** The arrays have their sizes and are distinct, the text of the term
        is zero-terminated at the write cursor, and the private state keeps
        the parser invariant. */
    predicate Valid()
      reads this, satelliteIds, termStr
    {
      satelliteIds.Length == SAT_SLOTS && termStr.Length == TERM_STR_SIZE && satelliteIds != termStr
      && termPos <= TERM_CAPACITY && termStr[termPos] == 0
      && ParserOk(cfg, Private())
    }

    /** The public record as a value. */
    function PublicFix(): Fix
      reads this, satelliteIds
      requires satelliteIds.Length == SAT_SLOTS
    {
      Fix(Gga(latitude, longitude, altitude, satsInUse, fix, hours, minutes, seconds),
          Gsa(dopH, dopV, dopP, fixMode, satelliteIds[..]),
          Gsv(satsInView),
          Rmc(isValid, date, month, year, speed, course, variation))
    }

    /** The private state as a value: the term is the text before the cursor. */
    function Private(): Parser
      reads this, termStr
      requires termPos <= termStr.Length
    {
      Parser(stat, termStr[..termPos], termNum, star, crcCalc, data)
    }

    function Model(): State
      reads this, satelliteIds, termStr
      requires Valid()
    {
      State(PublicFix(), Private())
    }

    /** A new parser: `gps_init` on fresh storage. */
    constructor (cfg: Config)
      ensures Valid() && Model() == INIT
      ensures this.cfg == cfg && fresh(satelliteIds) && fresh(termStr)
    {
      this.cfg := cfg;
      satelliteIds := new u8[SAT_SLOTS](_ => 0);
      termStr := new u8[TERM_STR_SIZE](_ => 0);
      new;
      var _ := Init();
    }

    /** `gps_init`: every field zero, no sentence in progress. */
    method Init() returns (ok: bool)
      requires satelliteIds.Length == SAT_SLOTS && termStr.Length == TERM_STR_SIZE && satelliteIds != termStr
      modifies this, satelliteIds, termStr
      ensures Valid() && Model() == INIT && ok
    {
      CopyGga(ZERO_GGA);
      CopyGsa(ZERO_GSA);
      CopyGsv(ZERO_GSV);
      CopyRmc(ZERO_RMC);
      assert PublicFix() == ZERO_FIX;
      ghost var ids := satelliteIds[..];
      Reset();
      assert satelliteIds[..] == ids;
      assert PublicFix() == ZERO_FIX;
      ok := true;
    }

    /** Empties the term buffer: cursor and first character back to zero. */
    method ClearTerm()
      requires termStr.Length == TERM_STR_SIZE
      modifies this`termPos, termStr
      ensures termPos == 0 && termStr[0] == 0
    {
      termStr[0] := 0;
      termPos := 0;
    }

    /** Appends a character to the term buffer if there is room. */
    method AddChar(c: u8)
      requires Valid()
      modifies this`termPos, termStr
      ensures termPos <= TERM_CAPACITY && termStr[termPos] == 0
      ensures Private() == Machine.TermAdd(old(Private()), c)
    {
      if termPos < TERM_CAPACITY {
        ghost var t := termStr[..termPos];
        termStr[termPos] := c;
        termStr[termPos + 1] := 0;
        termPos := termPos + 1;
        assert termStr[..termPos] == t + [c];
      }
    }

    /** Hands the finished term to the dispatcher or to the decoder of the
        selected statement. */
    method ParseTerm()
      requires Valid() && stat != Idle && !star
      modifies this`stat, this`data
      ensures Private() == Machine.ParseTerm(cfg, old(Private()))
    {
      if termNum == 0 {
        stat := Dispatch(cfg, termStr[..termPos]);
        data := Empty(stat);
      } else {
        data := DecodeTerm(data, termNum as int, termStr[..termPos]);
      }
    }

    /** Ends a term: parses it, clears the buffer and counts it. */
    method NextTerm()
      requires Valid() && stat != Idle && !star
      modifies this`stat, this`data, this`termPos, this`termNum, termStr
      ensures termPos == 0 && termStr[0] == 0
      ensures Private() == Machine.TermNext(Machine.ParseTerm(cfg, old(Private())))
    {
      ParseTerm();
      ClearTerm();
      termNum := ToU8(termNum as int + 1);
    }

    /** Copies the staging area into the public record: the whole family of
        the live area, nothing else. */
    method CopyFromStaging()
      requires satelliteIds.Length == SAT_SLOTS
      modifies this`latitude, this`longitude, this`altitude, this`satsInUse, this`fix
      modifies this`hours, this`minutes, this`seconds, this`dopH, this`dopV, this`dopP, this`fixMode
      modifies satelliteIds, this`satsInView, this`isValid, this`speed, this`course, this`variation
      modifies this`date, this`month, this`year
      ensures PublicFix() == Commit(old(PublicFix()), data)
    {
      match data
      case NoData =>
      case GgaData(g) => CopyGga(g);
      case GsaData(g) => CopyGsa(g);
      case GsvData(g) => CopyGsv(g);
      case RmcData(g) => CopyRmc(g);
    }

    method CopyGga(g: Gga)
      requires satelliteIds.Length == SAT_SLOTS
      modifies this`latitude, this`longitude, this`altitude, this`satsInUse, this`fix
      modifies this`hours, this`minutes, this`seconds
      ensures PublicFix() == old(PublicFix()).(gga := g)
    {
      ghost var before := PublicFix();
      latitude, longitude, altitude := g.latitude, g.longitude, g.altitude;
      satsInUse, fix, hours, minutes, seconds := g.satsInUse, g.fix, g.hours, g.minutes, g.seconds;
      assert satelliteIds[..] == before.gsa.satelliteIds;
    }

    method CopyGsa(g: Gsa)
      requires satelliteIds.Length == SAT_SLOTS
      modifies this`dopH, this`dopV, this`dopP, this`fixMode, satelliteIds
      ensures PublicFix() == old(PublicFix()).(gsa := g)
    {
      dopH, dopV, dopP, fixMode := g.dopH, g.dopV, g.dopP, g.fixMode;
      forall i | 0 <= i < SAT_SLOTS {
        satelliteIds[i] := g.satelliteIds[i];
      }
      assert satelliteIds[..] == g.satelliteIds;
    }

    method CopyRmc(g: Rmc)
      requires satelliteIds.Length == SAT_SLOTS
      modifies this`isValid, this`speed, this`course, this`variation, this`date, this`month, this`year
      ensures PublicFix() == old(PublicFix()).(rmc := g)
    {
      ghost var before := PublicFix();
      isValid, speed, course, variation := g.isValid, g.speed, g.course, g.variation;
      date, month, year := g.date, g.month, g.year;
      assert satelliteIds[..] == before.gsa.satelliteIds;
    }

    method CopyGsv(g: Gsv)
      requires satelliteIds.Length == SAT_SLOTS
      modifies this`satsInView
      ensures PublicFix() == old(PublicFix()).(gsv := g)
    {
      ghost var before := PublicFix();
      satsInView := g.satsInView;
      assert satelliteIds[..] == before.gsa.satelliteIds;
    }

    /** Back to no sentence in progress. */
    method Reset()
      requires termStr.Length == TERM_STR_SIZE
      modifies this`stat, this`termPos, this`termNum, this`star, this`crcCalc, this`data, termStr
      ensures termPos == 0 && termStr[0] == 0 && Private() == IDLE
    {
      ClearTerm();
      stat, termNum, star, crcCalc, data := Idle, 0, false, 0, NoData;
    }

    /** A `$`: a new sentence starts, whatever was in progress. */
    method Start()
      requires Valid()
      modifies this`stat, this`termPos, this`termNum, this`star, this`crcCalc, this`data, termStr
      ensures Valid() && PublicFix() == old(PublicFix()) && Private() == STARTED
    {
      ghost var ids := satelliteIds[..];
      ClearTerm();
      stat, termNum, star, crcCalc, data := Unknown, 0, false, 0, NoData;
      assert satelliteIds[..] == ids;
    }

    /** A `,` before the `*`: the term ends and the comma is checksummed. */
    method Comma()
      requires Valid() && stat != Idle && !star
      modifies this`stat, this`termPos, this`termNum, this`crcCalc, this`data, termStr
      ensures Valid() && PublicFix() == old(PublicFix())
      ensures Private() == Step(cfg, old(Model()), COMMA).p
    {
      ghost var s := Model();
      ghost var ids := satelliteIds[..];
      NextTerm();
      crcCalc := Xor(crcCalc, COMMA);
      StepComma(cfg, s);
      assert satelliteIds[..] == ids;
    }

    /** The `*`: the last term ends and the checksum digits follow. */
    method Star()
      requires Valid() && stat != Idle && !star
      modifies this`stat, this`termPos, this`termNum, this`star, this`data, termStr
      ensures Valid() && PublicFix() == old(PublicFix())
      ensures Private() == Step(cfg, old(Model()), STAR).p
    {
      ghost var s := Model();
      ghost var ids := satelliteIds[..];
      NextTerm();
      star := true;
      StepStar(cfg, s);
      assert satelliteIds[..] == ids;
    }

    /** Any other byte before the `*`: a character of the current term. */
    method TermChar(c: u8)
      requires Valid() && stat != Idle && !star && c != DOLLAR && c != COMMA && c != STAR
      modifies this`termPos, this`crcCalc, termStr
      ensures Valid() && PublicFix() == old(PublicFix())
      ensures Private() == Step(cfg, old(Model()), c).p
    {
      ghost var s := Model();
      ghost var ids := satelliteIds[..];
      AddChar(c);
      crcCalc := Xor(crcCalc, c);
      StepTermChar(cfg, s, c);
      assert satelliteIds[..] == ids;
    }

    /** The first checksum digit is kept in the term buffer. */
    method FirstDigit(c: u8)
      requires Valid() && stat != Idle && star && termPos == 0 && IsHex(c)
      modifies this`termPos, termStr
      ensures Valid() && PublicFix() == old(PublicFix())
      ensures Private() == Step(cfg, old(Model()), c).p
    {
      ghost var s := Model();
      ghost var ids := satelliteIds[..];
      termStr[0] := c;
      termStr[1] := 0;
      termPos := 1;
      assert termStr[..termPos] == [c];
      assert satelliteIds[..] == ids;
      StepFirstDigit(cfg, s, c);
    }

    /** The second checksum digit ends the sentence: the staging area is
        committed if the two digits equal the checksum, and the parser goes
        back to idle either way. */
    method SecondDigit(c: u8) returns (delivered: bool)
      requires Valid() && stat != Idle && star && termPos != 0 && IsHex(c)
      modifies this, satelliteIds, termStr
      ensures Valid() && Model() == Step(cfg, old(Model()), c)
      ensures delivered == (Commits(old(Model()), c) && old(data) != NoData)
    {
      ghost var s := Model();
      assert s.p.term[0] == termStr[0];
      StepSecondDigit(cfg, s, c);
      delivered := false;
      if IsHex(termStr[0]) && HexPair(termStr[0], c) == crcCalc as int {
        assert Commits(s, c);
        delivered := data != NoData;
        CopyFromStaging();
      } else {
        assert !Commits(s, c);
      }
      ghost var fix := PublicFix();
      assert fix == Step(cfg, s, c).fix;
      Reset();
      assert satelliteIds[..] == fix.gsa.satelliteIds;
      assert PublicFix() == fix;
    }

    /** One input byte. The new state is `Step` of the old one, and the byte
        delivers exactly when it completes a sentence of a supported
        statement whose checksum matches. */
    method ProcessByte(c: u8) returns (delivered: bool)
      requires Valid()
      modifies this, satelliteIds, termStr
      ensures Valid()
      ensures Model() == Step(cfg, old(Model()), c)
      ensures delivered == (Commits(old(Model()), c) && old(data) != NoData)
    {
      delivered := false;
      if c == DOLLAR {
        Start();
      } else if stat == Idle {
      } else if !star {
        if c == COMMA {
          Comma();
        } else if c == STAR {
          Star();
        } else {
          TermChar(c);
        }
      } else if !IsHex(c) {
      } else if termPos == 0 {
        FirstDigit(c);
      } else {
        delivered := SecondDigit(c);
      }
    }

    /** `gps_process`: every byte of `input` in order. The new state is
        `Run` of the old one, and the result says whether some sentence of a
        supported statement was committed. */
    method Process(input: seq<u8>) returns (delivered: bool)
      requires Valid()
      modifies this, satelliteIds, termStr
      ensures Valid()
      ensures Model() == Run(cfg, old(Model()), input)
      ensures delivered == Delivers(cfg, old(Model()), input)
    {
      ghost var s0 := Model();
      delivered := false;
      var i := 0;
      while i < |input|
        invariant 0 <= i <= |input|
        invariant Valid()
        invariant Model() == Run(cfg, s0, input[..i])
        invariant delivered == Delivers(cfg, s0, input[..i])
      {
        var d := ProcessByte(input[i]);
        RunSnoc(cfg, s0, input[..i], input[i]);
        DeliversSnoc(cfg, s0, input[..i], input[i]);
        assert input[..i + 1] == input[..i] + [input[i]];
        delivered := delivered || d;
        i := i + 1;
      }
      assert input[..i] == input;
    }
  }
}
