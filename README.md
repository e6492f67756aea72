# libspd in Dafny

libspd reads SPD files. An SPD file is a text file of spectral power
distribution samples: pairs of numbers (a wavelength, then its spectral power)
separated by white space and line breaks, with `#` comments. The library is
built in three layers, and this project models each one and proves what the
library and its tests promise about it. In five places `spd_reader.cc` does
not do what its tests expect: four defects are modelled as written (see
"## Findings"), and the missing check for a failed stream is described
under "## Left out". The description below is of the behaviour the tests
expect.

- **`SpdReader`** (`libspd/spd_reader.cc`) is the tokenizing and pairing
  engine.
  - The tests expect the first line break (CR, LF or CRLF) to become the
    canonical line ending. Every later break must repeat it byte for byte.
  - Each line is cut into runs of graphic characters. A run that starts with
    `#` is a comment that takes the rest of the line.
  - The other runs are parsed as numbers and paired (wavelength, value) in
    document order. The pairing carries over across line breaks and
    comments.
  - Comments and pairs go to two extension points, `HandleComment` and
    `HandleSample`, in document order. The tests expect a handler's error to
    stop the reading and to be returned.
  - The reader fails on mismatched line endings, on an unparsable token and
    on an odd number of value tokens.
- **`ValidatingSpdReader<Type>`** (`libspd/readers/validating_spd_reader.h`)
  collects samples in a map from wavelength to spectral power.
  - Before a sample is stored, a fixed chain of checks runs: negative
    wavelength, negative power, wavelength zero after narrowing to `Type`,
    non-finite wavelength, non-finite power.
  - The sample is then inserted without overwriting an existing entry.
  - The stored entry goes to the policy of the derived reader.
  - `Reset` hands the map over and leaves the reader empty.
- **The reflective and emissive readers** supply the two policies. The
  emissive policy accepts everything; the reflective one refuses a power
  above one. Their entry points build a fresh reader, read, and return the
  error or the map.

The model follows the structure of the code:

- `SpdReader` states the reader as functions: `FirstLine`, then `Lines`,
  then `Tokens`, then `Pairing`, which together make `Scan`; then
  `Dispatch` hands the events to the handlers.
- The imperative procedures of `spd_reader.cc` (`ReadFirstLine`,
  `ReadNextLine`, `ReadNextToken` and the loop of `ReadFrom`, split into
  `ReadEvents` and `ReadLineEvents`) are methods proved equal to those
  functions.
- `ValidatingSpdReader` is a class. Its `samples` map is updated by
  `HandleSample` and drained by `Reset`. `ReadFrom` is proved equal to
  `Read` under the validating handlers.
- The long-double arithmetic of the source is modelled with `real`.
  Narrowing to `float` or `double` is `Floats.Narrow`.
- `std::from_chars` is `CharConv.ParseNumber`, a small decimal automaton.
- Four defects where `spd_reader.cc` contradicts its own tests are
  modelled as written in `AsWritten`, each next to an input that shows the
  defect. The fifth, the missing check for a failed stream, is under
  "## Left out" (`Validating.ReadSpdBadStream`).
  The rest of the model uses the corrected behaviour, which is what the
  tests expect (see "## Findings").

Modules:

| file | module | what it holds |
|---|---|---|
| `spd_errors.dfy` | `SpdErrors` | the error datatype, `Outcome`, `Option`, `Result` |
| `char_conv.dfy` | `CharConv` | the number syntax accepted by `std::from_chars` |
| `floats.dfy` | `Floats` | precisions and narrowing of a long double |
| `spd_reader.dfy` | `SpdReader` | the line, token and pairing engine and its imperative procedures |
| `spd_reader_lemmas.dfy` | `SpdReaderLemmas` | line endings, pairing order, errors, handler results |
| `as_written.dfy` | `AsWritten` | the defects of `spd_reader.cc` as written |
| `validating_spd_reader.dfy` | `Validating` | the checks, the map, the class, what a successful read returns |
| `reflective_spd_reader.dfy` | `Reflective` | the value ≤ 1 policy and its entry point |
| `emissive_spd_reader.dfy` | `Emissive` | the accept-all policy and its entry point |
| `fixtures.dfy` | `Fixtures` | the documents of the reader tests, read end to end |

## Model

| member | source | states |
|---|---|---|
| CharConv.RunKeepsDigits | libspd/spd_reader.cc:116-118 | The scanner never loses digits it has read. A token whose scan counts more digits than it started with contains a digit. |
| CharConv.ParseNumber | libspd/spd_reader.cc:116-118 | A token parses only if it holds a digit, and every token that starts with a digit parses. |
| CharConv.DigitsParse | libspd/spd_reader.cc:116-118 | A non-empty token made only of decimal digits parses to its decimal value, read left to right with the last digit least significant. |
| CharConv.UnparsableTokens | libspd/spd_reader.cc:116-120 | The model reports a token with no digit, or one that starts with anything but a digit, `-` or `.`, as unparsable, which gives the unparsable-token error. `std::from_chars` would also accept `inf` and `nan`, which the model does not (see "## Left out"). |
| Floats.Narrow | libspd/readers/validating_spd_reader.h:39-50 | `static_cast<Type>` of a long double: a finite result has the sign of the input (zero counting as either). Narrowing to `long double` is the identity. |
| Floats.NarrowIsIdempotent | libspd/readers/validating_spd_reader.h:39 | A narrowed finite value is already a value of the target type: narrowing it again changes nothing. |
| Floats.NarrowIsMonotone | libspd/readers/validating_spd_reader.h:50 | Narrowing keeps the order of non-negative values. |
| Floats.SmallNumbersAreRepresentable | libspd/readers/validating_spd_reader.h:39-50 | Zero, one half and the whole numbers of magnitude 1 to 10^6 (the values of the test fixtures) survive narrowing unchanged at every precision; each of them is exactly a `float` and a `double`. |
| SpdReader.BreakIndexShape | libspd/spd_reader.cc:38-39 | The bytes before the found index are not breaks, and the byte at the index, if any, is a CR or an LF. |
| SpdReader.FirstLine | libspd/spd_reader.cc:9-30 | The first line never reads past the input. With no line ending it is the whole input. |
| SpdReader.FirstLineShape | libspd/spd_reader.cc:9-30 | The input starts with the line's text followed by its ending. The text holds no break. The ending is LF, CR or CRLF, and it is empty exactly when the input holds no break. A lone CR is not followed by an LF. |
| SpdReader.ReadFirstLine | libspd/spd_reader.cc:9-30 | The byte loop returns exactly the first line and its ending (`FirstLine`). |
| SpdReader.MatchEnding | libspd/spd_reader.cc:40-45 | A matching break ends after the canonical ending, or at the end of the input if the input stops inside it. |
| SpdReader.MatchEndingShape | libspd/spd_reader.cc:40-45 | The break matches exactly when every byte present agrees with the canonical ending. |
| SpdReader.NextLine | libspd/spd_reader.cc:32-53 | A line read stays inside the input, and it advances whenever input is left. |
| SpdReader.NextLineShape | libspd/spd_reader.cc:32-53 | The line is the next run of input bytes and holds no break. It is followed by a prefix of the canonical ending, which is cut short only at the end of the input. A mismatch happens only when a break is ahead. |
| SpdReader.ReadNextLine | libspd/spd_reader.cc:32-53 | The byte loop, including the inner loop comparing the break with the canonical ending, returns exactly `NextLine`. |
| SpdReader.Lines | libspd/spd_reader.cc:90-107 | A document always has at least one line (the first, possibly empty). |
| SpdReader.GraphEnd | libspd/spd_reader.cc:75-79 | The run found is all graphic and stops at the first non-graphic byte or at the end. |
| SpdReader.NextToken | libspd/spd_reader.cc:55-85 | A token is non-empty and starts with a graphic byte, and the token and the rest together are no longer than the text, so each call shortens it. |
| SpdReader.NextTokenNone | libspd/spd_reader.cc:56-66 | There is no token exactly when the text holds no graphic byte. |
| SpdReader.NextTokenShape | libspd/spd_reader.cc:55-85 | The text is some skipped non-graphic bytes, then the token, then the rest. A comment token takes the rest of the line. Any other token is a maximal graphic run. |
| SpdReader.ReadNextToken | libspd/spd_reader.cc:55-85 | Consuming the view in place returns `NextToken`'s token and rest, or none with nothing left. |
| SpdReader.TakeToken | libspd/spd_reader.cc:112-128 | Handling one token: a comment becomes a comment event, and a number either waits as the wavelength or completes a sample. An unparsable token stops the reading. The events and the state left agree with `Pairing`. |
| SpdReader.ReadLineEvents | libspd/spd_reader.cc:110-130 | The token loop over one line gives the events `Pairing` gives for that line's tokens, and leaves the pending wavelength for the next line. |
| SpdReader.ReadEvents | libspd/spd_reader.cc:89-138 | The `for(;;)` loop of `ReadFrom` produces exactly `Scan(input)`: the events in document order and the error that ends the document. |
| SpdReader.Dispatch | libspd/spd_reader.cc:112-128 | Handing no events changes no state. The reading succeeds only when the document itself ended without error. |
| SpdReaderLemmas.NextLineAt | libspd/spd_reader.cc:32-53 | A line written with the canonical ending is read back as that line. |
| SpdReaderLemmas.LinesFromLine | libspd/spd_reader.cc:94-107 | The lines of the document are the line just read followed by the lines after it. |
| SpdReaderLemmas.WrittenReads | libspd/spd_reader.cc:32-53 | Lines written one after another with the same ending are read back one by one. |
| SpdReaderLemmas.LinesFromReads | libspd/spd_reader.cc:94-107 | The lines read back, then whatever follows them, make up the document. |
| SpdReaderLemmas.TerminatedWritten | libspd/spd_reader.cc:32-53 | Joining lines with an ending writes each line followed by that ending. |
| SpdReaderLemmas.FirstLineAt | libspd/spd_reader.cc:9-30 | A first line followed by LF, CR or CRLF is read with that ending as the canonical one. |
| SpdReaderLemmas.LinesOfWritten | libspd/spd_reader.cc:89-107 | A document whose lines all end with the same break is read back line by line, whichever of the three breaks it uses. |
| SpdReaderLemmas.LinesOfTerminated | libspd/spd_reader_test.cc:154-203 | Break-free lines each terminated by LF, CR or CRLF are read back as exactly those lines, with no mismatch. |
| SpdReaderLemmas.LinesOfTerminatedThen | libspd/spd_reader_test.cc:154-203 | The same lines followed by a last non-empty line with no break of its own are read back as those lines and the last one, with no mismatch. |
| SpdReaderLemmas.ScanTerminated | libspd/spd_reader_test.cc:154-203 | Such a document, with or without a last unterminated line, gives the events of its lines' tokens in order and no error. |
| SpdReaderLemmas.LineEndingsAgree | libspd/spd_reader_test.cc:154-203 | The LF, CR and CRLF versions of the same lines give the same events and the same result, whether or not the last line has a break. |
| SpdReaderLemmas.MismatchAt | libspd/spd_reader.cc:39-45 | A break that differs from the canonical ending stops the document there, with the mismatch error. |
| SpdReaderLemmas.MismatchedBreakStops | libspd/spd_reader.cc:39-45 | After correctly terminated lines, a break whose first byte differs from the canonical ending fails with mismatched line endings. Nothing after it is tokenized, but the earlier lines still give their events. |
| SpdReaderLemmas.LoneCarriageReturnMismatches | libspd/spd_reader.cc:39-45 | In a CRLF document, a CR followed by anything but LF is a mismatch. |
| SpdReaderLemmas.TrailingCarriageReturnAccepted | libspd/spd_reader.cc:44-45 | In a CRLF document, a final CR cut short by the end of the input is accepted as the last break. |
| SpdReaderLemmas.FinalLine | libspd/spd_reader.cc:39-46 | A last line followed by one byte of the ending ends the document without error. |
| SpdReaderLemmas.PairingEnds | libspd/spd_reader.cc:117-135 | The error that ends the document is decided by its tokens. An unparsable token gives the unparsable-token error. Otherwise a mismatched break gives that error, an odd count of numbers (counting a pending wavelength) gives the odd-number error, and an even count gives none. |
| SpdReaderLemmas.PairingSamples | libspd/spd_reader.cc:93-128 | The samples are the numbers of the document taken two by two in document order, across lines and comments. |
| SpdReaderLemmas.PairingComments | libspd/spd_reader.cc:68-72 | When every value token is a number, the comments are all the comment tokens in document order, each without its `#` and possibly empty. |
| SpdReaderLemmas.ScanInOrder | libspd/spd_reader.cc:89-138 | For a whole document: the samples are its numbers paired in order, the comments its comment texts in order, and the final error as in `PairingEnds`. |
| SpdReaderLemmas.EmptyInputHandlesNothing | libspd/spd_reader_test.cc:90-97 | Empty input gives no events and succeeds without calling a handler. |
| SpdReaderLemmas.DispatchAppend | libspd/spd_reader_test.cc:70-88 | Handlers run in order. The first handler error is returned unchanged and nothing after it is handled; otherwise the reading goes on with the handlers' new state. |
| SpdReaderLemmas.TokensOfWord | libspd/spd_reader.cc:74-84 | A graphic word followed by a non-graphic byte, or by nothing, is the next token. |
| SpdReaderLemmas.TokensOfSpace | libspd/spd_reader.cc:56-62 | Leading non-graphic bytes are skipped. |
| SpdReaderLemmas.TokensOfComment | libspd/spd_reader.cc:68-72 | A text starting with `#` is a single token, spaces and later `#`s included. |
| SpdReaderLemmas.TokensOfPair | libspd/spd_reader.cc:55-85 | Two words separated by a space are two tokens. |
| AsWritten.FirstLineAsWritten | libspd/spd_reader.cc:9-30 | As written, only a CR ends the first line: the text holds no CR, and an LF stays in it. Only the CR is consumed. The recorded ending is CR, or CR CR exactly when the byte left unread is an LF. The text is the input up to the first CR, or the whole input when it has none. |
| AsWritten.CrlfRejectedAsWritten | libspd/spd_reader.cc:15-20 | With only `ReadFirstLine` as written (the other three defects corrected), the CRLF document "1 2\r\n3 4\r\n" gives the sample (1, 2) and then fails with mismatched line endings at the LF left unread after its first CR. |
| AsWritten.CrlfAccepted | libspd/spd_reader_test.cc:188-203 | The corrected reader reads that document as the two samples (1, 2) and (3, 4) without error. |
| AsWritten.NextTokenAsWritten | libspd/spd_reader.cc:74-84 | As written, the token returned is the remainder of the text, not the run it cut. |
| AsWritten.TokenCutShortAsWritten | libspd/spd_reader.cc:74-82 | As written, "12 34" yields the token "2 34"; the corrected reader yields "12". |
| AsWritten.DispatchAsWritten | libspd/spd_reader.cc:112-128 | As written, the result ignores every handler. It is the document's own error or success. |
| AsWritten.HandlerErrorDroppedAsWritten | libspd/spd_reader.cc:114-127 | As written, a comment handler's error on "#Comment" is lost and the reading succeeds. The corrected reader returns that error. |
| AsWritten.LineAsWritten | libspd/spd_reader.cc:110-111 | As written, each pass takes one token off the line and discards it. The loop is undefined once only non-graphic bytes are left. A line made only of graphic bytes is used up without reaching that point. A line without `#` whose last byte is not graphic always reaches it. |
| AsWritten.ScanLoopAsWritten | libspd/spd_reader.cc:110-111 | As written, a reading that stays defined produces no events at all, and fails only on a mismatched break. |
| AsWritten.TokensDroppedAsWritten | libspd/spd_reader.cc:110-111 | As written, "1 2" gives no sample and succeeds; the corrected reader gives the sample (1, 2). |
| Validating.Guard | libspd/readers/validating_spd_reader.h:29-60 | A sample passes exactly when both inputs are non-negative, the narrowed wavelength is finite and non-zero, and the narrowed power is finite. The stored entry is the narrowed pair: a positive wavelength and a non-negative power, both values of the target type. |
| Validating.GuardOrder | libspd/readers/validating_spd_reader.h:29-60 | The checks run in the source's order and the first failure decides the error: negative wavelength, then negative power, then zero wavelength, then non-finite wavelength, then non-finite power. |
| Validating.SampleStep | libspd/readers/validating_spd_reader.h:27-70 | A failed check leaves the map unchanged and does not consult the policy. A wavelength already stored fails and keeps the earlier value. Otherwise the narrowed entry is added and the policy's verdict on it is the result, without undoing the insert. The map invariant is preserved. |
| Validating.HandleValidation | libspd/readers/validating_spd_reader.h:24-28 | A comment goes to the policy unchanged. A sample goes through the checked insert. |
| Validating.ValidatingSpdReader.constructor | libspd/readers/validating_spd_reader.h:11-14 | A new reader has an empty map, which satisfies the invariant. |
| Validating.ValidatingSpdReader.Reset | libspd/readers/validating_spd_reader.h:17-21 | Returns the accumulated map and leaves the reader's map empty. |
| Validating.ValidatingSpdReader.HandleSample | libspd/readers/validating_spd_reader.h:27-70 | Changes the map and returns the outcome exactly as `SampleStep` says, and keeps the invariant: every stored key is positive and every stored value non-negative, both finite values of the target type. |
| Validating.ValidatingSpdReader.HandleEvent | libspd/spd_reader.cc:112-128 | Handling one event on the reader is the validating handler applied to the old map. |
| Validating.ValidatingSpdReader.ReadFrom | libspd/spd_reader.cc:89-138 | Reading a stream into the reader gives the outcome and map of `Read` with the validating handlers, and keeps the invariant. |
| Validating.ResetAroundRead | libspd/readers/validating_spd_reader_test.cc:84-88 | `Reset` before a read returns nothing. After the read it returns what was read, and a second `Reset` returns nothing. |
| Validating.SampleStepPasses | libspd/readers/validating_spd_reader.h:62-69 | A sample that succeeds was new: the map grows by exactly its narrowed entry and the policy accepted that entry. |
| Validating.DispatchKeeps | libspd/readers/validating_spd_reader.h:62-67 | Reading never removes or overwrites an entry already in the map. |
| Validating.DispatchComments | libspd/spd_reader.cc:112-114 | A successful read had no document error and the policy accepted every comment. |
| Validating.DispatchStores | libspd/readers/validating_spd_reader.h:62-69 | After a successful read, every sample of the document passed the checks, its narrowed entry is in the map, and the policy accepted it. |
| Validating.DispatchFresh | libspd/readers/validating_spd_reader.h:62-67 | After a successful read, the narrowed wavelengths of the samples were all new and pairwise distinct. |
| Validating.DispatchGrows | libspd/readers/validating_spd_reader.h:62-67 | After a successful read, the map grew by exactly one entry per sample. |
| Validating.DispatchAdds | libspd/readers/validating_spd_reader.h:62-63 | After a successful read, every entry was already there or is the narrowed form of one of the document's samples. |
| Validating.DispatchAccepts | libspd/readers/validating_spd_reader.h:29-69 | Conversely, events with no document error, accepted comments, checked and accepted samples and fresh, distinct wavelengths are read successfully. |
| Validating.ReadSpdAccepts | libspd/readers/validating_spd_reader.h:29-69 | A good stream is read successfully exactly when its document is acceptable in that sense. |
| Validating.ReadSpdResult | libspd/readers/validating_spd_reader.h:29-69 | A successful read returns a valid map with exactly one entry per sample. Each sample's narrowed entry is in it, and every entry comes from a sample. |
| Validating.ReadSpdBadStream | libspd/spd_reader_test.cc:32-37 | A stream that has already failed is rejected with the bad-stream error. |
| Validating.LeastOf | libspd/readers/validating_spd_reader_test.cc:86-87 | Every non-empty set of wavelengths has a least element. |
| Validating.Least | libspd/readers/validating_spd_reader_test.cc:86-87 | The least wavelength of a non-empty map is one of its keys and no greater than any other. |
| Validating.EntriesStep | libspd/readers/validating_spd_reader_test.cc:86-87 | The entries of a map are its least entry followed by the entries of the rest. |
| Validating.EntriesFrom | libspd/readers/validating_spd_reader_test.cc:86-87 | Any key no greater than all others comes first. |
| Validating.EntriesFromMap | libspd/readers/validating_spd_reader_test.cc:86-87 | Iteration lists as many entries as the map holds, each one an entry of the map. |
| Validating.EntriesComplete | libspd/readers/validating_spd_reader_test.cc:86-87 | Every entry of the map is listed. |
| Validating.EntriesSorted | libspd/readers/validating_spd_reader_test.cc:86-87 | The entries are listed in strictly ascending wavelength order, whatever the document order. |
| Reflective.AcceptComment | libspd/readers/reflective_spd_reader.cc:11-14 | Every comment is accepted. |
| Reflective.CheckReflectance | libspd/readers/reflective_spd_reader.cc:16-25 | A sample is refused exactly when its power exceeds one, with the power-greater-than-one error; exactly 1.0 is accepted. |
| Reflective.ReadReflectiveSpdFrom | libspd/readers/reflective_spd_reader.cc:30-64 | A fresh reader reads the stream. The result is its error unchanged, or the map handed over by `Reset`, exactly as `ReadSpd` with the reflective policy. |
| Reflective.ReflectanceInRange | libspd/readers/reflective_spd_reader.cc:16-25 | Every value of a successful reflective read lies in [0, 1]. |
| Reflective.ReflectiveAccepts | libspd/readers/reflective_spd_reader.cc:16-25 | A reflective read succeeds exactly when the document has no error, every sample passes the checks with a narrowed power of at most one, and the wavelengths are distinct. |
| Emissive.AcceptComment | libspd/readers/emissive_spd_reader.cc:11-14 | Every comment is accepted. |
| Emissive.AcceptSample | libspd/readers/emissive_spd_reader.cc:16-19 | Every stored sample is accepted. |
| Emissive.ReadEmissiveSpdFrom | libspd/readers/emissive_spd_reader.cc:24-58 | A fresh reader reads the stream. The result is its error unchanged, or the map handed over by `Reset`, exactly as `ReadSpd` with the emissive policy. |
| Emissive.EmissiveAccepts | libspd/readers/emissive_spd_reader.cc:16-19 | An emissive read succeeds exactly when the document has no error, every sample passes the checks and the wavelengths are distinct. The result holds exactly the samples' narrowed entries. |
| Fixtures.EmissionEvents | libspd/readers/validating_spd_reader_test.cc:72-82 | The well-formed document gives the comment "Comment" and then the samples (1, 2), (5, 6), (3, 4), in that order. |
| Fixtures.ReadCommentAndThreeSamples | libspd/readers/validating_spd_reader_test.cc:67-89 | A document of one accepted comment and three checked, distinct, accepted samples reads as the map of those three samples. |
| Fixtures.EmissiveWellFormed | libspd/readers/emissive_spd_reader_test.cc:23-39 | At every precision, the emissive reader reads the well-formed document as {1:2, 3:4, 5:6}. |
| Fixtures.EmissionMapInOrder | libspd/readers/validating_spd_reader_test.cc:86-87 | That map iterates as (1, 2), (3, 4), (5, 6). |
| Fixtures.ReadCommentThenRefusedSample | libspd/readers/validating_spd_reader_test.cc:54-65 | When the policy refuses the first sample after an accepted comment, the read fails with the policy's own error. |
| Fixtures.ReflectiveRejectsEmission | libspd/readers/reflective_spd_reader_test.cc:23-42 | At every precision, the reflective reader refuses the well-formed document because a power exceeds one. |
| Fixtures.ReflectanceEvents | libspd/readers/reflective_spd_reader_test.cc:44-60 | The reflective document gives the comment and the samples (1, 1), (5, 0.5), (3, 0) in order. |
| Fixtures.ReflectiveWellFormed | libspd/readers/reflective_spd_reader_test.cc:44-60 | At every precision, the reflective reader reads that document as {1:1, 3:0, 5:0.5}. |

## Left out

- Stream mechanics (`get`, `peek`, EOF) are left out. The input is a byte sequence, or `Bad` for a stream that has already failed.
- Validating.ReadSpdBadStream: `spd_reader.cc` has no check for a failed stream, which reads as an empty document (see `SpdReaderLemmas.EmptyInputHandlesNothing`). The model follows the test at libspd/spd_reader_test.cc:32-37 and rejects it with `BadStream`.
- Floats.Narrow: rounding is not modelled. Narrowing to `long double` changes nothing. For `float` or `double`, a value above the largest finite value of the type becomes non-finite. A value of smaller magnitude than the least subnormal becomes zero. Every other value is kept exactly, so the model does not capture a sample that changes by rounding or that collides with another after rounding. The contract states only that a finite result keeps the sign; it promises no bound on the magnitude, since rounding to nearest can move a value away from zero.
- `std::isfinite` is not modelled separately. The second identical power check (libspd/readers/validating_spd_reader.h:57-60) can never fire and is modelled once.
- CharConv.ParseNumber: it covers signs, digits, a decimal point and an exponent. It does not cover `inf`, `nan`, hexadecimal floats or out-of-range results of `std::from_chars`. As in the source, only a numeric prefix is needed ("1.0abc" parses as 1.0).
- `std::isgraph` is the ASCII range 0x21-0x7E; locales are left out.
- SpdReader.ReadEvents: the source calls the handlers while it tokenizes. The model first scans the whole document into events, then `Dispatch` hands them to the handlers. Tokenizing has no side effects, so the calls, their order and the result are the same. The model does not capture the point in the input where a handler error interrupts reading.
- The three entry points per reader (`…AsLongDoublesFrom`, `…AsDoublesFrom`, `…AsFloatsFrom`) are one method with a `Precision` parameter. The compile-time dispatch in libspd/readers/reflective_spd_reader.h and libspd/readers/emissive_spd_reader.h is not part of this model.
- The policy receives the stored entry by reference (`std::pair<const Type, Type>&`) and could change its value in place. The model hands it the entry by value; both policies in the source only read it.
- Error messages are constructors of `SpdErrors.Error`, not strings. Three messages in libspd/readers/validating_spd_reader.h (lines 42, 47, 66) differ from the strings the tests expect (libspd/readers/validating_spd_reader_test.cc lines 117, 127, 148). The model does not capture the wording.
- Naming mismatches are not modelled:
  - libspd/spd_reader.h declares the extension points as `ParseComment`/`ParseSample`, but the code and the tests use `HandleComment`/`HandleSample`, which the model follows.
  - The emissive entry points are spelled `ReadEmisive…` in the source but called `ReadEmissiveSpdFrom` by the tests.
- The test data files are not part of this model. `Fixtures` writes out documents that match what the tests expect of `well_formed.spd` and `well_formed_reflective.spd`: a comment line, then the pairs in the order the handler calls are expected.
- AsWritten.LineAsWritten: when the rest of a line holds only non-graphic bytes, the inverted loop condition makes the loop dereference an empty `optional`, which is undefined behaviour. The model only marks such a line as undefined (`false`) and does not say what the program would do.

## Findings

Each row's input shows its defect with the other three corrected, which is how `AsWritten` models them. In the program as written the defects interact: the inverted token loop hides the dropped handler results, and a CRLF document fails before any sample is handled.

| source | as written | input that shows it | evidently intended | confidence | as-written member | corrected member |
|---|---|---|---|---|---|---|
| libspd/spd_reader.cc:15-20 | `ReadFirstLine` stops only at CR, and for CRLF it appends CR twice and never consumes the LF, so a CRLF document fails at the LF left unread after its first CR | "1 2\r\n3 4\r\n" fails with mismatched line endings at the LF of its first break (after the sample (1, 2) once the token loop is corrected) | CR, LF and CRLF all accepted as the canonical ending; the document gives (1, 2) and (3, 4) | not executed | AsWritten.CrlfRejectedAsWritten | SpdReaderLemmas.LineEndingsAgree |
| libspd/spd_reader.cc:74-82 | the inner `token_length` shadows the outer one, and `substr(token_length)` returns the remainder instead of the token | "12 34" yields the token "2 34" | the token is the maximal graphic run "12" and the rest is " 34" | not executed | AsWritten.TokenCutShortAsWritten | SpdReader.NextTokenShape |
| libspd/spd_reader.cc:110-111 | the token loop runs while there is *no* token, so no line with a token is ever handled | "1 2" gives no sample and succeeds | the line's tokens are handled in order, giving the sample (1, 2) | not executed | AsWritten.TokensDroppedAsWritten | SpdReader.ReadLineEvents |
| libspd/spd_reader.cc:114-127 | the results of `HandleComment` and `HandleSample` are discarded | "#Comment" with a comment handler that fails still reads successfully (once the token loop is corrected; as written the comment never reaches the handler) | the first handler error is returned unchanged and stops the reading | not executed | AsWritten.HandlerErrorDroppedAsWritten | SpdReaderLemmas.DispatchAppend |
