/** The byte-at-a-time parser as a function on values: the private state
    `p` of `gps_t` as a `Parser`, one transition per input byte (`Step`),
    and the processing of a whole byte slice (`Run`). */
module Machine {
  import opened Bytes
  import opened Terms
  import opened Record
  import opened Decoders

  /** The private parser state: statement index, term buffer (its text up
      to the write cursor), term number, `*`-seen flag, running checksum and
      the staging union. */
  datatype Parser = Parser(stat: Stat, term: seq<u8>, termNum: u8, star: bool, crcCalc: u8, data: Staging)

  /** All of `gps_t`: the public record and the private parser state. */
  datatype State = State(fix: Fix, p: Parser)

  /** No sentence in progress. */
  const IDLE := Parser(Idle, [], 0, false, 0, NoData)
  /** Just after a `$`: term 0 is being read, nothing is staged. */
  const STARTED := Parser(Unknown, [], 0, false, 0, NoData)
  /** The state `gps_init` establishes. */
  const INIT := State(ZERO_FIX, IDLE)

  /** The invariant of the private state: the term buffer is within its
      capacity (after `*` it holds at most the first checksum digit), the
      live staging area is the one the statement index selects, and only a
      compiled-in statement can be selected. */
  predicate ParserOk(cfg: Config, p: Parser) {
    |p.term| <= TERM_CAPACITY
    && (p.star ==> |p.term| <= 1)
    && Selects(p.stat, p.data)
    && Selectable(cfg, p.stat)
    && (p.stat == Idle ==> p == IDLE)
  }

  /** Appends a character to the term buffer if there is room. */
  function TermAdd(p: Parser, c: u8): Parser {
    if |p.term| < TERM_CAPACITY then p.(term := p.term + [c]) else p
  }

  /** Clears the term buffer and moves on to the next term number (a byte,
      so it wraps after 255). */
  function TermNext(p: Parser): Parser {
    p.(term := [], termNum := ToU8(p.termNum as int + 1))
  }

  /** Hands the finished term to the dispatcher (term 0) or to the decoder
      of the selected statement. */
  function ParseTerm(cfg: Config, p: Parser): Parser {
    if p.termNum == 0 then
      var st := Dispatch(cfg, p.term);
      p.(stat := st, data := Empty(st))
    else
      p.(data := DecodeTerm(p.data, p.termNum as int, p.term))
  }

  /** Byte `c` is the second checksum digit of a sentence in progress and
      the two digits equal the computed checksum. */
  predicate Commits(s: State, c: u8) {
    c != DOLLAR && s.p.stat != Idle && s.p.star && IsHex(c)
    && s.p.term != [] && IsHex(s.p.term[0])
    && HexPair(s.p.term[0], c) == s.p.crcCalc as int
  }

  /** One input byte. `$` always starts a new sentence; outside a sentence
      every other byte is ignored; before `*` a `,` ends a term, `*` ends the
      last one, and any other byte is a term character; every byte before
      `*` except `*` itself goes into the checksum. After `*` hexadecimal
      digits are collected, and the second one ends the sentence. */
  function Step(cfg: Config, s: State, c: u8): (r: State)
    // The public record changes only by a commit of the staging area, and
    // only when the sentence's checksum matches.
    ensures r.fix == if Commits(s, c) then Commit(s.fix, s.p.data) else s.fix
    // `$` resynchronises from any state.
    ensures c == DOLLAR ==> r.p == STARTED
    // Before `*` every byte but `*` is folded into the checksum.
    ensures c != DOLLAR && s.p.stat != Idle && !s.p.star ==>
              r.p.star == (c == STAR)
              && r.p.crcCalc == (if c == STAR then s.p.crcCalc else Xor(s.p.crcCalc, c))
    // After `*` the checksum is frozen until the sentence ends.
    ensures c != DOLLAR && s.p.star && r.p.stat != Idle ==> r.p.star && r.p.crcCalc == s.p.crcCalc
    // A completed sentence leaves the parser idle.
    ensures Commits(s, c) ==> r.p == IDLE
    ensures ParserOk(cfg, s.p) ==> ParserOk(cfg, r.p)
  {
    if c == DOLLAR then State(s.fix, STARTED)
    else if s.p.stat == Idle then s
    else if !s.p.star then
      if c == COMMA then State(s.fix, TermNext(ParseTerm(cfg, s.p)).(crcCalc := Xor(s.p.crcCalc, c)))
      else if c == STAR then State(s.fix, TermNext(ParseTerm(cfg, s.p)).(star := true))
      else State(s.fix, TermAdd(s.p, c).(crcCalc := Xor(s.p.crcCalc, c)))
    else if !IsHex(c) then s
    else if s.p.term == [] then State(s.fix, s.p.(term := [c]))
    else State(if Commits(s, c) then Commit(s.fix, s.p.data) else s.fix, IDLE)
  }

  // The transitions of `Step`, one lemma per case, for proofs that follow
  // the bytes of a sentence.

  lemma StepTermChar(cfg: Config, s: State, c: u8)
    requires s.p.stat != Idle && !s.p.star && c != DOLLAR && c != COMMA && c != STAR
    ensures Step(cfg, s, c) == State(s.fix, TermAdd(s.p, c).(crcCalc := Xor(s.p.crcCalc, c)))
  {
  }

  lemma StepComma(cfg: Config, s: State)
    requires s.p.stat != Idle && !s.p.star
    ensures Step(cfg, s, COMMA) == State(s.fix, TermNext(ParseTerm(cfg, s.p)).(crcCalc := Xor(s.p.crcCalc, COMMA)))
  {
  }

  lemma StepStar(cfg: Config, s: State)
    requires s.p.stat != Idle && !s.p.star
    ensures Step(cfg, s, STAR) == State(s.fix, TermNext(ParseTerm(cfg, s.p)).(star := true))
  {
  }

  lemma StepFirstDigit(cfg: Config, s: State, c: u8)
    requires s.p.stat != Idle && s.p.star && s.p.term == [] && IsHex(c)
    ensures Step(cfg, s, c) == State(s.fix, s.p.(term := [c]))
  {
  }

  lemma StepSecondDigit(cfg: Config, s: State, c: u8)
    requires s.p.stat != Idle && s.p.star && s.p.term != [] && IsHex(c)
    ensures Step(cfg, s, c) == State(if Commits(s, c) then Commit(s.fix, s.p.data) else s.fix, IDLE)
  {
  }

  /** `gps_process` on the slice `xs`. */
  function Run(cfg: Config, s: State, xs: seq<u8>): State
    decreases |xs|
  {
    if xs == [] then s else Run(cfg, Step(cfg, s, xs[0]), xs[1..])
  }

  /** Processing `xs` and then `ys` is processing `xs + ys`: all parser
      state is carried in the state, so chunk boundaries do not matter. */
  lemma {:induction false} RunAppend(cfg: Config, s: State, xs: seq<u8>, ys: seq<u8>)
    ensures Run(cfg, s, xs + ys) == Run(cfg, Run(cfg, s, xs), ys)
    decreases |xs|
  {
    if xs == [] {
      assert xs + ys == ys;
    } else {
      assert (xs + ys)[0] == xs[0];
      assert (xs + ys)[1..] == xs[1..] + ys;
      RunAppend(cfg, Step(cfg, s, xs[0]), xs[1..], ys);
    }
  }

  /** The last byte of a slice is one more step. */
  lemma RunSnoc(cfg: Config, s: State, xs: seq<u8>, c: u8)
    ensures Run(cfg, s, xs + [c]) == Step(cfg, Run(cfg, s, xs), c)
  {
    RunAppend(cfg, s, xs, [c]);
    assert Run(cfg, Run(cfg, s, xs), [c]) == Run(cfg, Step(cfg, Run(cfg, s, xs), c), []);
  }

  /** Some byte of `xs` completes a sentence of a supported statement whose
      checksum matches: the public record has been refreshed. */
  predicate Delivers(cfg: Config, s: State, xs: seq<u8>)
    decreases |xs|
  {
    xs != [] && ((Commits(s, xs[0]) && s.p.data != NoData) || Delivers(cfg, Step(cfg, s, xs[0]), xs[1..]))
  }

  lemma {:induction false} DeliversSnoc(cfg: Config, s: State, xs: seq<u8>, c: u8)
    ensures Delivers(cfg, s, xs + [c])
        <==> Delivers(cfg, s, xs) || (Commits(Run(cfg, s, xs), c) && Run(cfg, s, xs).p.data != NoData)
    decreases |xs|
  {
    if xs == [] {
      assert xs + [c] == [c];
    } else {
      assert (xs + [c])[0] == xs[0];
      assert (xs + [c])[1..] == xs[1..] + [c];
      DeliversSnoc(cfg, Step(cfg, s, xs[0]), xs[1..], c);
    }
  }

  /** The private-state invariant holds whatever bytes arrive. */
  lemma {:induction false} RunKeepsParserOk(cfg: Config, s: State, xs: seq<u8>)
    requires ParserOk(cfg, s.p)
    ensures ParserOk(cfg, Run(cfg, s, xs).p)
    decreases |xs|
  {
    if xs != [] {
      RunKeepsParserOk(cfg, Step(cfg, s, xs[0]), xs[1..]);
    }
  }

  /** Without a `*` no checksum can complete, so a truncated sentence never
      touches the public record. */
  lemma {:induction false} NoStarNoChange(cfg: Config, s: State, xs: seq<u8>)
    requires !s.p.star
    requires forall i :: 0 <= i < |xs| ==> xs[i] != STAR
    ensures Run(cfg, s, xs).fix == s.fix
    ensures !Run(cfg, s, xs).p.star
    decreases |xs|
  {
    if xs != [] {
      NoStarNoChange(cfg, Step(cfg, s, xs[0]), xs[1..]);
    }
  }

  /** A statement compiled out is never selected, so no input changes its
      block of the public record; with RMC compiled out `gps_is_valid`
      keeps answering 0. */
  lemma {:induction false} DisabledFrozen(cfg: Config, s: State, xs: seq<u8>)
    requires ParserOk(cfg, s.p)
    ensures !cfg.gga ==> Run(cfg, s, xs).fix.gga == s.fix.gga
    ensures !cfg.gsa ==> Run(cfg, s, xs).fix.gsa == s.fix.gsa
    ensures !cfg.gsv ==> Run(cfg, s, xs).fix.gsv == s.fix.gsv
    ensures !cfg.rmc ==> Run(cfg, s, xs).fix.rmc == s.fix.rmc
    ensures !cfg.rmc ==> IsValid(cfg, Run(cfg, s, xs).fix) == 0
    decreases |xs|
  {
    if xs != [] {
      DisabledFrozen(cfg, Step(cfg, s, xs[0]), xs[1..]);
    }
  }
}
