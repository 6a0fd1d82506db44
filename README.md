# GPS NMEA 0183 parser — a Dafny model

The library parses the text that a GPS receiver sends, in the NMEA 0183
sentence format `$id,t1,...,tk*hh`, one byte at a time. All its state lives
in one structure, `gps_t`. The structure has two parts:

- The public fix record: one block of fields for each of the four
  supported statements, GGA, GSA, GSV and RMC.
- A private part: the statement index, a 13-byte term buffer with its
  cursor, the term number, the `*`-seen flag, the running checksum, and a
  union of staging areas.

`gps_init` clears the structure. `gps_process` takes a buffer of any
length, and its state carries over from one call to the next. A sentence's
terms are decoded into the staging area of its statement. That area is
copied into the public block only when the two checksum digits match the
exclusive-or of the characters between `$` and `*`. `gps_is_valid` reads
the RMC status, or gives 0 when RMC is compiled out. Each statement can be
compiled out with a `GPS_CFG_STATEMENT_*` switch.

The project has eight files, in dependency order:

- `bytes.dfy` (module `Bytes`): bytes, delimiters, the checksum fold, and
  hexadecimal digits.
- `terms.dfy` (module `Terms`): the bounded term buffer and the pure
  decoding of one term. This covers integers, decimal numbers, `ddmm.mmmm`
  coordinates, two-digit time and date fields, hemisphere letters and the
  status letter. Integers (signed or not, with or without leading zeros),
  unsigned and negative decimals `ip.fp`, `ddmm.mmmm` coordinates with
  their hemisphere letter, and two-digit time and date fields are each
  proved to read back as the value their text denotes. The status letter is covered by the whole-sentence
  lemma `Families.ValidityReported`.
- `record.dfy` (module `Record`): the public record as one datatype per
  statement family, the staging union, the statement index, the build
  switches, and the commit of a staging area.
- `decoders.dfy` (module `Decoders`): the statement dispatcher and the four
  positional field decoders.
- `machine.dfy` (module `Machine`): the byte-level state machine as a pure
  function. `Step` takes one byte and `Run` takes a slice. This file also
  holds the invariants the machine keeps.
- `sentences.dfy` (module `Sentences`): what a whole sentence does from any
  state, and what follows for corrupted, repeated, truncated, unsupported and
  chunked input.
- `families.dfy` (module `Families`): what a sentence of each statement
  writes into its block.
- `gps.dfy` (module `Gps`): `gps_t` as the class `Gps`. Its fields mirror
  the structure, and the satellite IDs and the term text are arrays. Every
  method is proved against the value model. The per-byte methods and
  `Process` are proved against `Step` and `Run`. The buffer, term and copy
  helpers are proved against the part of a step they perform (`TermAdd`,
  `ParseTerm`, `TermNext`, `Commit`, a one-family update). The header's `coarse` field is called `course` here.

## Model

| member | source | states |
|---|---|---|
| `Bytes.XorFromAppend` | src/include/gps/gps.h:119 | The running checksum of a concatenation is the checksum of the second part, continued from the checksum of the first. So the checksum does not depend on how the bytes are split into terms or calls. |
| `Bytes.HexDigits` | src/include/gps/gps.h:119 | Every checksum byte has two hexadecimal digits, and those digits read back as the byte. |
| `Bytes.HexDigitsLowerCase` | src/include/gps/gps.h:119 | The checksum field is read case-insensitively: the lower-case form of the two digits reads back as the same byte. |
| `Terms.Keep` | src/include/gps/gps.h:113-114 | The term buffer keeps at most 12 characters. What it keeps is a prefix of the received text: all of it when the term is short, exactly 12 characters otherwise. |
| `Terms.KeepAppend` | src/include/gps/gps.h:113-114 | Dropping characters past the capacity as they arrive gives the same text as truncating the whole term once. |
| `Terms.ParseNumberDecimal` | src/include/gps/gps.h:78-79 | The integer decoder reads back any natural number written in decimal without leading zeros, and its negative after a `-`. |
| `Terms.ParseNumberDigits` | src/include/gps/gps.h:78-79 | The integer decoder reads any digit string followed by non-digit text as its value, leading zeros included (`08` reads as 8), and after a `-` as its negative. |
| `Terms.ParseRealFraction` | src/include/gps/gps.h:75-77 | The number decoder reads `ip.fp` as the value of its integer and fraction digits, and `-ip.fp` as its negative, whatever non-digit text follows. |
| `Terms.ParseRealInteger` | src/include/gps/gps.h:77 | On the decimal text of a natural number, with or without a leading `-` (an altitude of `-12`, say), the decimal decoder and the integer decoder agree with the written value. |
| `Terms.ElidedReadsZero` | src/include/gps/gps.h:75-82 | An empty numeric term reads as 0, and so does text that starts with no digit, sign or decimal point. An empty time or date term reads as three zeros. |
| `Terms.CoordinateDegreesMinutes` | src/include/gps/gps.h:75-76 | A `ddmm.mmmm` coordinate with `d` degrees and `m` minutes (0 ≤ m < 100) reads as `d + m/60` degrees. |
| `Terms.TwoDigitFields` | src/include/gps/gps.h:80-82 | Each of the three fields taken from an `hhmmss` or `ddmmyy` term is at most 99. |
| `Terms.TwoDigitFieldsRoundTrip` | src/include/gps/gps.h:105-107 | A time or date written as three two-digit numbers reads back as those numbers, with any fraction of a second dropped. |
| `Terms.SignedCoordinate` | src/include/gps/gps.h:75-76 | A `ddmm.mmmm` term followed by its hemisphere letter reads as signed decimal degrees: `d + m/60`, where `d` is the hundreds of the integer digits and `m` (below 100) the rest with the fraction, negated exactly when the letter is the one counted negative (`S` or `W`). |
| `Record.Commit` | src/include/gps/gps.h:121-146 | Committing a staging area replaces its own family of the public record as a whole. Every other family is left as it was. |
| `Record.CommitIdempotent` | src/include/gps/gps.h:121-146 | Committing the same staging area twice leaves what committing it once leaves. |
| `Record.Empty` | src/include/gps/gps.h:121-146 | The cleared staging area of a statement is the union member of that statement. |
| `Decoders.Dispatch` | docs/src/_mainpage.h:11-15 | Term 0 selects GGA, GSA, GSV or RMC exactly when it is that statement's identifier and the statement is compiled in. Otherwise it selects "unknown", never "idle". |
| `Decoders.DefaultBuildSelectsAll` | src/include/gps/gps.h:47-61 | In the default build all four statements are compiled in, so each identifier selects its statement. |
| `Decoders.GsaTerm` | src/include/gps/gps.h:91 | A GSA term writes at most one of the 12 satellite slots: slot `n-3` for positions 3 to 14, and no slot for any other position. |
| `Decoders.DecodeTerm` | src/include/gps/gps.h:121-146 | Decoding a term never changes which staging area is live. |
| `Machine.Step` | src/include/gps/gps.h:111-147 | One byte, with these guarantees: (1) the public record changes only by committing the staging area, when the second checksum digit matches; (2) `$` restarts from any state; (3) before `*` every byte except `*` is folded into the checksum, and after `*` the checksum is frozen; (4) a commit leaves the parser idle; (5) the private-state invariant is kept. |
| `Machine.RunAppend` | src/include/gps/gps.h:186 | Processing `xs` and then `ys` gives the state that processing `xs + ys` gives. |
| `Machine.DeliversSnoc` | src/include/gps/gps.h:186 | A slice with one more byte delivers when the shorter slice delivered, or when the last byte completes a matching sentence of a supported statement. |
| `Machine.RunKeepsParserOk` | src/include/gps/gps.h:111-147 | Whatever bytes arrive, the following hold: the term cursor stays at most 12; only the staging area that the statement index selects is live; only a compiled-in statement is selected. |
| `Machine.NoStarNoChange` | src/include/gps/gps.h:117 | From a state that has not seen `*`, input without a `*` never changes the public record. |
| `Machine.DisabledFrozen` | src/include/gps/gps.h:47-61 | For each of GGA, GSA, GSV and RMC compiled out, no input changes that statement's block. With RMC compiled out, `gps_is_valid` stays 0. |
| `Sentences.TermBytes` | src/include/gps/gps.h:113-119 | A term's characters go into the bounded buffer and into the checksum. |
| `Sentences.ParseAllDecodes` | src/include/gps/gps.h:112-115 | Handing each term to the decoder at its delimiter builds the staging area that decoding the term list in order describes. |
| `Sentences.TailThenStar` | src/include/gps/gps.h:115-119 | Inside a sentence, `,t1,...,tk*` decodes every pending term and folds everything before `*` into the checksum. It then waits for the checksum digits. |
| `Sentences.SentenceOutcome` | src/include/gps/gps.h:111-147 | From any state, a sentence commits its statement's decoded terms exactly when its checksum digits equal the checksum of its body. Otherwise it changes nothing public. Either way the parser ends idle. |
| `Sentences.WellFormedCommits` | src/include/gps/gps.h:186 | A correctly checksummed sentence commits its decoded terms. |
| `Sentences.CorruptedIgnored` | src/include/gps/gps.h:117-119 | A sentence whose checksum field does not match leaves the public record unchanged. |
| `Sentences.Idempotent` | src/include/gps/gps.h:121-146 | Receiving a sentence twice gives the state that receiving it once gives. |
| `Sentences.Resynchronises` | src/include/gps/gps.h:111-119 | A sentence cut short followed by a complete one leaves only the complete one's effect. The cut can fall before the `*`, just after it, or after the first checksum digit (or any one byte after the `*`). |
| `Sentences.UnsupportedIgnored` | src/include/gps/gps.h:112 | A correctly checksummed sentence of an unsupported or compiled-out statement changes no public field, and the parser is ready for the next sentence. |
| `Sentences.ChunkingInvariant` | src/include/gps/gps.h:186 | However the input is cut into `gps_process` calls, the resulting state is the state of one call on all of it. |
| `Families.GgaSentence` | src/include/gps/gps.h:73-83 | A GGA sentence fills these fields: latitude and longitude in signed degrees from terms 2 to 5; fix quality from term 6; satellites in use from term 7; altitude from term 9; hours, minutes and seconds from term 1. |
| `Families.GsaSentence` | src/include/gps/gps.h:85-92 | A GSA sentence sets the fix mode from term 2, satellite slot `i` from term `i + 3` for all 12 slots, and PDOP, HDOP and VDOP from terms 15 to 17. |
| `Families.GsaEmptySlot` | src/include/gps/gps.h:91 | An empty satellite ID term leaves its slot 0. |
| `Families.GsvSentence` | src/include/gps/gps.h:94-97 | A GSV sentence sets the number of satellites in view from term 3. |
| `Families.RmcSentence` | src/include/gps/gps.h:99-108 | An RMC sentence fills these fields: status from term 2; speed and course from terms 7 and 8; day, month and year from term 9; the signed magnetic variation from terms 10 and 11. |
| `Families.LaterTermsIgnored` | src/include/gps/gps.h:124-145 | Terms after the last position a statement uses do not change its staging area. |
| `Families.ValidityReported` | src/include/gps/gps.h:151-152 | After a well-formed RMC sentence, `gps_is_valid` is 1 exactly when the status term starts with `A`. |
| `Families.FixQualityNotRangeChecked` | src/include/gps/gps.h:79 | The fix quality is stored as received. Any number below 256 in GGA term 6 ends up in `fix`, even outside the documented 0 to 3. |
| `Families.ElidedAltitudeZero` | src/include/gps/gps.h:77 | A well-formed GGA sentence with an empty altitude term commits altitude 0. |
| `Families.FixModeNotRangeChecked` | src/include/gps/gps.h:90 | The fix mode is stored as received. Any number below 256 in GSA term 2 ends up in `fix_mode`, even outside the documented 1 to 3. |
| `Gps.Gps.constructor` | src/include/gps/gps.h:185 | A new parser stands for the initial state: every field zero, no sentence in progress. |
| `Gps.Gps.Init` | src/include/gps/gps.h:185 | `gps_init` resets every field to zero with no sentence in progress, and reports success. |
| `Gps.Gps.AddChar` | src/include/gps/gps.h:113-114 | A character is stored at the cursor while there is room. The text stays zero-terminated at the cursor. |
| `Gps.Gps.NextTerm` | src/include/gps/gps.h:112-115 | Ending a term hands it to the dispatcher or decoder, empties the buffer, and advances the 8-bit term number. |
| `Gps.Gps.CopyFromStaging` | src/include/gps/gps.h:121-146 | The commit copies the live staging area into the public fields of its family, including all 12 satellite IDs, and nothing else. |
| `Gps.Gps.ProcessByte` | src/include/gps/gps.h:111-147 | The object after one byte stands for `Step` of the state before it. The byte delivers exactly when it commits a supported statement. |
| `Gps.Gps.Process` | src/include/gps/gps.h:186 | `gps_process`: the object after the buffer stands for `Run` of the state before it. The result says whether some sentence of a supported statement was committed during the call. |

## Left out

- The implementation file of the library is not part of this model. Only the
  header is. The term positions follow the NMEA 0183 field order of each
  sentence: GGA 1 time, 2-5 position, 6 fix, 7 satellites, 9 altitude; GSA 2
  mode, 3-14 IDs, 15-17 DOPs; GSV 3 satellites in view; RMC 2 status, 7 speed,
  8 course, 9 date, 10-11 variation. The number formats and the `A`/`S`/`W`
  letters are also taken from NMEA 0183. The following are assumptions about
  the implementation that NMEA 0183 does not settle:
  - a sentence is committed on its second checksum digit, not at `<CR><LF>`;
  - term 0 must equal `GPGGA`, `GPGSA`, `GPGSV` or `GPRMC` exactly, not just
    start with it;
  - bytes outside `$...*hh` and non-hexadecimal bytes after `*` are ignored;
  - the checksum digits `a` to `f` are accepted as well as `A` to `F`;
  - a non-digit in a time or date term reads as 0;
  - a coordinate's degrees are the floor of its value over 100. For a
    negative term such as `-4807.5` this gives -49 degrees plus 92.5 minutes,
    not the -48 degrees a cast toward zero would give.
- The term number is a `uint8_t`, so it wraps after 255. In the model, term
  256 of a sentence is therefore handed to the dispatcher again as if it were
  term 0. The sentence lemmas assume at most 254 terms after the identifier,
  so that this wrap never happens within them.
- RMC time and position terms are not stored, because the header's RMC block
  has no fields for them.
- `gps_float_t` (double or float, `GPS_CFG_DOUBLE`) is modelled as a
  mathematical real, so rounding is not modelled.
- Integer conversion does not model the overflow of a C `int` on terms of
  more than 9 digits. The narrowing to `uint8_t` is modelled, modulo 256.
- `gps_distance_bearing` and `gps_to_speed` with `gps_speed_t` are pure
  helpers outside the parser and are not modelled.
- The transport that feeds bytes is not modelled. `gps_process` takes the
  bytes as a sequence instead of a buffer address and a length.
- The return value of `gps_process` is modelled as "some sentence of a
  supported statement was committed during the call". The header only says
  it returns a `uint8_t`.
- The build switches are a `Config` value given to the constructor, not
  preprocessor conditions. A compiled-out statement's fields are still present
  in the class, but no input can change them.
