/** Whole sentences: what the parser does with `$id,t1,...,tk*hh`, whatever
    state it was in, and what follows for corrupted, repeated, truncated,
    unsupported and chunked input. */
module Sentences {
  import opened Bytes
  import opened Terms
  import opened Record
  import opened Decoders
  import opened Machine

  /** Term text holds no delimiter. */
  predicate Plain(t: seq<u8>) {
    forall i :: 0 <= i < |t| ==> t[i] != DOLLAR && t[i] != COMMA && t[i] != STAR
  }

  predicate AllPlain(ts: seq<seq<u8>>) {
    forall i :: 0 <= i < |ts| ==> Plain(ts[i])
  }

  /** `,t1,t2,...,tk`: the terms after the first, each after its comma. */
  function Tail(ts: seq<seq<u8>>): seq<u8>
    decreases |ts|
  {
    if ts == [] then [] else [COMMA] + ts[0] + Tail(ts[1..])
  }

  /** The checksummed part of a sentence, between `$` and `*`. */
  function Body(id: seq<u8>, ts: seq<seq<u8>>): seq<u8> {
    id + Tail(ts)
  }

  /** `$` body `*` followed by the two checksum characters `hi` `lo`. */
  function Sentence(id: seq<u8>, ts: seq<seq<u8>>, hi: u8, lo: u8): seq<u8> {
    [DOLLAR] + Body(id, ts) + [STAR, hi, lo]
  }

  /** The sentence as a transmitter writes it: the checksum digits are those
      of the body's checksum. */
  function WellFormed(id: seq<u8>, ts: seq<seq<u8>>): seq<u8> {
    var (hi, lo) := HexDigits(Checksum(Body(id, ts)));
    Sentence(id, ts, hi, lo)
  }

  /** Buffer and checksum after one more character, then the rest. */
  lemma TermFold(term: seq<u8>, crc: u8, t: seq<u8>)
    requires t != []
    ensures Keep(Keep(term + [t[0]]) + t[1..]) == Keep(term + t)
    ensures XorFrom(Xor(crc, t[0]), t[1..]) == XorFrom(crc, t)
  {
    KeepAppend(term + [t[0]], t[1..]);
    assert term + [t[0]] + t[1..] == term + t;
  }

  /** A term character, as a step between parser values. */
  lemma TermCharStep(cfg: Config, s: State, c: u8)
    requires s.p.stat != Idle && !s.p.star && |s.p.term| <= TERM_CAPACITY
    requires c != DOLLAR && c != COMMA && c != STAR
    ensures Step(cfg, s, c) == State(s.fix, s.p.(term := Keep(s.p.term + [c]), crcCalc := Xor(s.p.crcCalc, c)))
  {
    StepTermChar(cfg, s, c);
    assert Keep(s.p.term + [c]) == TermAdd(s.p, c).term;
  }

  /** The characters of one term go into the bounded buffer and into the
      checksum. */
  lemma {:induction false} TermBytes(cfg: Config, s: State, t: seq<u8>)
    requires s.p.stat != Idle && !s.p.star && |s.p.term| <= TERM_CAPACITY && Plain(t)
    ensures Run(cfg, s, t) == State(s.fix, s.p.(term := Keep(s.p.term + t), crcCalc := XorFrom(s.p.crcCalc, t)))
    decreases |t|
  {
    if t == [] {
      assert s.p.term + t == s.p.term;
    } else {
      var p1 := s.p.(term := Keep(s.p.term + [t[0]]), crcCalc := Xor(s.p.crcCalc, t[0]));
      TermCharStep(cfg, s, t[0]);
      assert Plain(t[1..]);
      TermBytes(cfg, State(s.fix, p1), t[1..]);
      TermFold(s.p.term, s.p.crcCalc, t);
    }
  }

  /** The parser after the term in `p`'s buffer and then each term of `ts`
      has been handed to its decoder. */
  function ParseAll(cfg: Config, p: Parser, ts: seq<seq<u8>>): Parser
    decreases |ts|
  {
    var q := TermNext(ParseTerm(cfg, p));
    if ts == [] then q else ParseAll(cfg, q.(term := Keep(ts[0])), ts[1..])
  }

  /** Decoding does not depend on the checksum. */
  lemma {:induction false} ParseAllCrc(cfg: Config, p: Parser, ts: seq<seq<u8>>, c: u8)
    ensures ParseAll(cfg, p.(crcCalc := c), ts) == ParseAll(cfg, p, ts).(crcCalc := c)
    decreases |ts|
  {
    if ts != [] {
      var q := TermNext(ParseTerm(cfg, p));
      ParseAllCrc(cfg, q.(term := Keep(ts[0])), ts[1..], c);
    }
  }

  /** Handing the terms to the decoders one by one, as the parser does at
      each delimiter, yields the staging area `DecodeFrom` describes. */
  lemma {:induction false} ParseAllDecodes(cfg: Config, p: Parser, ts: seq<seq<u8>>)
    requires p.termNum as int + |ts| <= 255
    requires p.termNum == 0 || p.stat != Idle
    ensures var r := ParseAll(cfg, p, ts);
      r.data == DecodeFrom(ParseTerm(cfg, p).data, p.termNum as int + 1, ts)
      && r.stat == ParseTerm(cfg, p).stat && r.stat != Idle
      && r.term == [] && r.star == p.star && r.crcCalc == p.crcCalc
    decreases |ts|
  {
    var n := p.termNum as int + 1;
    var q := TermNext(ParseTerm(cfg, p));
    assert q.stat != Idle;
    if ts != [] {
      assert q.termNum as int == n by {
        assert 0 < n <= 255;
      }
      var q1 := q.(term := Keep(ts[0]));
      assert ParseAll(cfg, p, ts) == ParseAll(cfg, q1, ts[1..]);
      ParseAllDecodes(cfg, q1, ts[1..]);
      assert ParseTerm(cfg, q1) == q1.(data := DecodeTerm(q.data, n, Keep(ts[0]))) by {
        assert q1.termNum != 0 && q1.data == q.data;
      }
      assert DecodeFrom(q.data, n, ts) == DecodeFrom(DecodeTerm(q.data, n, Keep(ts[0])), n + 1, ts[1..]);
    }
  }

  /** A comma and the next term's characters: the pending term is handed to
      its decoder and the new one fills the buffer. */
  lemma CommaTerm(cfg: Config, s: State, t: seq<u8>, after: seq<u8>)
    requires s.p.stat != Idle && !s.p.star && |s.p.term| <= TERM_CAPACITY && Plain(t)
    ensures Run(cfg, s, [COMMA] + t + after)
         == Run(cfg, State(s.fix, TermNext(ParseTerm(cfg, s.p)).(term := Keep(t),
                                   crcCalc := XorFrom(s.p.crcCalc, [COMMA] + t))), after)
  {
    var s1 := State(s.fix, TermNext(ParseTerm(cfg, s.p)).(crcCalc := Xor(s.p.crcCalc, COMMA)));
    StepComma(cfg, s);
    assert ([COMMA] + t + after)[1..] == t + after;
    assert Run(cfg, s, [COMMA] + t + after) == Run(cfg, s1, t + after);
    RunAppend(cfg, s1, t, after);
    TermBytes(cfg, s1, t);
    assert [] + t == t;
    XorFromAppend(s.p.crcCalc, [COMMA], t);
  }

  /** From inside a sentence, `,t1,...,tk*` hands every pending term to its
      decoder, folds everything before `*` into the checksum and leaves the
      parser waiting for the checksum digits. */
  lemma {:induction false} TailThenStar(cfg: Config, s: State, ts: seq<seq<u8>>)
    requires s.p.stat != Idle && !s.p.star && |s.p.term| <= TERM_CAPACITY && AllPlain(ts)
    ensures Run(cfg, s, Tail(ts) + [STAR])
         == State(s.fix, ParseAll(cfg, s.p, ts).(star := true, crcCalc := XorFrom(s.p.crcCalc, Tail(ts))))
    decreases |ts|
  {
    var q := TermNext(ParseTerm(cfg, s.p));
    if ts == [] {
      assert Tail(ts) + [STAR] == [STAR];
      StepStar(cfg, s);
      assert Run(cfg, s, [STAR]) == Run(cfg, Step(cfg, s, STAR), []);
    } else {
      var t, rest := ts[0], ts[1..];
      assert Plain(t) && AllPlain(rest);
      assert Tail(ts) + [STAR] == [COMMA] + t + (Tail(rest) + [STAR]);
      CommaTerm(cfg, s, t, Tail(rest) + [STAR]);
      var x := XorFrom(s.p.crcCalc, [COMMA] + t);
      TailThenStar(cfg, State(s.fix, q.(term := Keep(t), crcCalc := x)), rest);
      ParseAllCrc(cfg, q.(term := Keep(t)), rest, x);
      assert q.(term := Keep(t), crcCalc := x) == q.(term := Keep(t)).(crcCalc := x);
      XorFromAppend(s.p.crcCalc, [COMMA] + t, Tail(rest));
      assert Tail(ts) == [COMMA] + t + Tail(rest);
    }
  }

  /** What one sentence does, from any state: the staging area of its
      statement, filled from its terms, is committed exactly when the two
      checksum characters equal the checksum of the body; otherwise the
      public record is unchanged. Either way the parser ends idle. */
  lemma SentenceOutcome(cfg: Config, s: State, id: seq<u8>, ts: seq<seq<u8>>, hi: u8, lo: u8)
    requires Plain(id) && AllPlain(ts) && |ts| <= 254
    requires IsHex(hi) && IsHex(lo)
    ensures Run(cfg, s, Sentence(id, ts, hi, lo))
         == State(if HexPair(hi, lo) == Checksum(Body(id, ts)) as int
                  then Commit(s.fix, Decoded(cfg, id, ts)) else s.fix,
                  IDLE)
  {
    var s1 := State(s.fix, STARTED);
    var tail := Tail(ts) + [STAR];
    assert Sentence(id, ts, hi, lo) == [DOLLAR] + (id + (tail + [hi, lo]));
    assert Run(cfg, s, Sentence(id, ts, hi, lo)) == Run(cfg, s1, id + (tail + [hi, lo]));
    RunAppend(cfg, s1, id, tail + [hi, lo]);
    TermBytes(cfg, s1, id);
    assert [] + id == id;
    var p2 := STARTED.(term := Keep(id), crcCalc := XorFrom(0, id));
    var s2 := State(s.fix, p2);
    RunAppend(cfg, s2, tail, [hi, lo]);
    TailThenStar(cfg, s2, ts);
    ParseAllDecodes(cfg, p2, ts);
    XorFromAppend(0, id, Tail(ts));
    var p3 := ParseAll(cfg, p2, ts).(star := true, crcCalc := Checksum(Body(id, ts)));
    assert p3.data == Decoded(cfg, id, ts);
    var s3 := State(s.fix, p3);
    var s4 := State(s.fix, p3.(term := [hi]));
    StepFirstDigit(cfg, s3, hi);
    assert Run(cfg, s3, [hi, lo]) == Run(cfg, s4, [lo]);
    StepSecondDigit(cfg, s4, lo);
    assert Run(cfg, s4, [lo]) == Run(cfg, Step(cfg, s4, lo), []);
  }

  /** A well-formed sentence commits its statement's decoded terms. */
  lemma WellFormedCommits(cfg: Config, s: State, id: seq<u8>, ts: seq<seq<u8>>)
    requires Plain(id) && AllPlain(ts) && |ts| <= 254
    ensures Run(cfg, s, WellFormed(id, ts)) == State(Commit(s.fix, Decoded(cfg, id, ts)), IDLE)
  {
    var (hi, lo) := HexDigits(Checksum(Body(id, ts)));
    SentenceOutcome(cfg, s, id, ts, hi, lo);
  }

  /** A sentence whose checksum field does not match its body changes no
      public field. */
  lemma CorruptedIgnored(cfg: Config, s: State, id: seq<u8>, ts: seq<seq<u8>>, hi: u8, lo: u8)
    requires Plain(id) && AllPlain(ts) && |ts| <= 254
    requires IsHex(hi) && IsHex(lo) && HexPair(hi, lo) != Checksum(Body(id, ts)) as int
    ensures Run(cfg, s, Sentence(id, ts, hi, lo)) == State(s.fix, IDLE)
  {
    SentenceOutcome(cfg, s, id, ts, hi, lo);
  }

  /** Receiving the same sentence twice leaves the record as receiving it
      once. */
  lemma Idempotent(cfg: Config, s: State, id: seq<u8>, ts: seq<seq<u8>>)
    requires Plain(id) && AllPlain(ts) && |ts| <= 254
    ensures Run(cfg, s, WellFormed(id, ts) + WellFormed(id, ts)) == Run(cfg, s, WellFormed(id, ts))
  {
    var w := WellFormed(id, ts);
    RunAppend(cfg, s, w, w);
    WellFormedCommits(cfg, s, id, ts);
    WellFormedCommits(cfg, Run(cfg, s, w), id, ts);
    CommitIdempotent(s.fix, Decoded(cfg, id, ts));
  }

  /** A sentence cut short and then a complete one: only the complete one
      shows in the record. The fragment starts with `$` and breaks off
      before its `*`, just after it, or after one more byte (such as the
      first checksum digit). */
  lemma Resynchronises(cfg: Config, s: State, cut: seq<u8>, tail: seq<u8>, id: seq<u8>, ts: seq<seq<u8>>)
    requires cut != [] && cut[0] == DOLLAR
    requires forall i :: 0 <= i < |cut| ==> cut[i] != STAR
    requires tail == [] || (tail[0] == STAR && |tail| <= 2)
    requires Plain(id) && AllPlain(ts) && |ts| <= 254
    ensures Run(cfg, s, cut + tail + WellFormed(id, ts)) == State(Commit(s.fix, Decoded(cfg, id, ts)), IDLE)
  {
    RunAppend(cfg, s, cut + tail, WellFormed(id, ts));
    RunAppend(cfg, s, cut, tail);
    var s1 := State(s.fix, STARTED);
    assert Run(cfg, s, cut) == Run(cfg, s1, cut[1..]);
    NoStarNoChange(cfg, s1, cut[1..]);
    assert Run(cfg, Run(cfg, s, cut), tail).fix == s.fix by {
      CutAtStar(cfg, Run(cfg, s, cut), tail);
    }
    WellFormedCommits(cfg, Run(cfg, s, cut + tail), id, ts);
  }

  /** From a state that has not seen `*`, the `*` and one more byte cannot
      complete a checksum: the term buffer is empty after the `*`. */
  lemma CutAtStar(cfg: Config, s: State, tail: seq<u8>)
    requires !s.p.star
    requires tail == [] || (tail[0] == STAR && |tail| <= 2)
    ensures Run(cfg, s, tail).fix == s.fix
  {
    if tail != [] {
      var s1 := Step(cfg, s, STAR);
      assert s1.fix == s.fix && (s1.p.stat == Idle || s1.p.term == []);
      if |tail| == 2 {
        assert !Commits(s1, tail[1]);
        assert Run(cfg, s1, tail[1..]) == Run(cfg, Step(cfg, s1, tail[1]), []);
      }
    }
  }

  /** Terms of a statement that is not supported (or not compiled in) are
      not decoded. */
  lemma {:induction false} NothingStagedUnknown(n: nat, ts: seq<seq<u8>>)
    ensures DecodeFrom(NoData, n, ts) == NoData
    decreases |ts|
  {
    if ts != [] {
      NothingStagedUnknown(n + 1, ts[1..]);
    }
  }

  /** A correctly checksummed sentence of an unsupported statement changes
      no public field and leaves the parser ready for the next sentence. */
  lemma UnsupportedIgnored(cfg: Config, s: State, id: seq<u8>, ts: seq<seq<u8>>, next: seq<u8>)
    requires Plain(id) && AllPlain(ts) && |ts| <= 254
    requires Dispatch(cfg, Keep(id)) == Unknown
    ensures Run(cfg, s, WellFormed(id, ts) + next) == Run(cfg, State(s.fix, IDLE), next)
  {
    RunAppend(cfg, s, WellFormed(id, ts), next);
    WellFormedCommits(cfg, s, id, ts);
    NothingStagedUnknown(1, ts);
  }

  function Concat(chunks: seq<seq<u8>>): seq<u8>
    decreases |chunks|
  {
    if chunks == [] then [] else chunks[0] + Concat(chunks[1..])
  }

  /** One `gps_process` call per chunk, in order. */
  function RunChunks(cfg: Config, s: State, chunks: seq<seq<u8>>): State
    decreases |chunks|
  {
    if chunks == [] then s else RunChunks(cfg, Run(cfg, s, chunks[0]), chunks[1..])
  }

  /** However the input is cut into calls, the resulting state is the one
      of a single call on the whole input. */
  lemma {:induction false} ChunkingInvariant(cfg: Config, s: State, chunks: seq<seq<u8>>)
    ensures RunChunks(cfg, s, chunks) == Run(cfg, s, Concat(chunks))
    decreases |chunks|
  {
    if chunks != [] {
      ChunkingInvariant(cfg, Run(cfg, s, chunks[0]), chunks[1..]);
      RunAppend(cfg, s, chunks[0], Concat(chunks[1..]));
    }
  }
}
