/** The base SPD reader: line-ending detection and checking, tokenizing, and
    pairing of value tokens into (wavelength, value) samples, all at the
    widest precision (`long double`, modelled as `real`).

    The specification is layered the way the source reads its input:
    physical lines (`Lines`), then the tokens of each line (`Tokens`), then a
    sequence of comment and sample events (`Pairing`, `Scan`). Handing the
    events to the two extension points is `Dispatch`, and `Read` is the whole
    of `SpdReader::ReadFrom`. The methods `ReadFirstLine`, `ReadNextLine`,
    `ReadNextToken` and `ReadEvents` are the source's loops, each proved equal
    to its specification function. */
module SpdReader {
  import opened SpdErrors
  import opened CharConv

  /** `std::isgraph` in the "C" locale: the printable ASCII characters other
      than space. */
  predicate IsGraph(c: char) {
    '!' <= c <= '~'
  }

  /** The bytes that start a line break. */
  predicate IsBreak(c: char) {
    c == '\r' || c == '\n'
  }

  predicate BreakFree(s: string) {
    forall i :: 0 <= i < |s| ==> !IsBreak(s[i])
  }

  /** The three line breaks a document may use. */
  predicate IsLineEnding(e: string) {
    e == "\n" || e == "\r" || e == "\r\n"
  }

  /** The input stream: readable with these bytes, or already failed. */
  datatype Stream = Bad | Good(bytes: string)

  /** What the reader hands to its extension points, in document order. */
  datatype Event = Comment(text: string) | Sample(wavelength: real, value: real)

  // ---------------------------------------------------------------------
  // Lines
  // ---------------------------------------------------------------------

  /** The index of the first line-break byte at or after `from` (or `|s|`). */
  function BreakIndex(s: string, from: nat): (r: nat)
    requires from <= |s|
    ensures from <= r <= |s|
    decreases |s| - from
  {
    if from == |s| || IsBreak(s[from]) then from else BreakIndex(s, from + 1)
  }

  /** `BreakIndex` stops at the first break: no break before it, and a
      break there unless the input ends. */
  lemma {:induction false} BreakIndexShape(s: string, from: nat)
    requires from <= |s|
    ensures var r := BreakIndex(s, from);
      && (forall i :: from <= i < r ==> !IsBreak(s[i]))
      && (r < |s| ==> IsBreak(s[r]))
    decreases |s| - from
  {
    if from < |s| && !IsBreak(s[from]) {
      BreakIndexShape(s, from + 1);
    }
  }

  /** The first line, the canonical line ending it establishes, and where the
      second line starts. */
  datatype FirstLineRead = FirstLineRead(text: string, ending: string, next: nat)

  /** The first physical line. Its break (CR, LF or CRLF, the longest that
      matches) becomes the canonical ending; with no break at all the ending
      is empty and the whole input is one line. */
  function FirstLine(input: string): (r: FirstLineRead)
    ensures r.next <= |input|
    ensures r.ending == [] ==> r.next == |input|
  {
    var b := BreakIndex(input, 0);
    if b == |input| then
      FirstLineRead(input, [], |input|)
    else if input[b] == '\r' && b + 1 < |input| && input[b + 1] == '\n' then
      FirstLineRead(input[..b], "\r\n", b + 2)
    else
      FirstLineRead(input[..b], [input[b]], b + 1)
  }

  /** The first line is the input up to its first break, and the ending is
      that break: LF, CR, or CR followed by LF, whichever is longest; the
      ending is empty exactly when the input has no break. */
  lemma FirstLineShape(input: string)
    ensures var r := FirstLine(input);
      && r.next == |r.text| + |r.ending|
      && input[..r.next] == r.text + r.ending
      && BreakFree(r.text)
      && (r.ending == [] || IsLineEnding(r.ending))
      && (r.ending == [] <==> BreakFree(input))
      && (r.ending == "\r" ==> r.next == |input| || input[r.next] != '\n')
  {
    BreakIndexShape(input, 0);
    var b := BreakIndex(input, 0);
    if b < |input| {
      assert !BreakFree(input);
    }
  }

  /** Matches the break that starts at `j` against the canonical `ending`,
      one byte at a time, as the `do ... while` loop of `ReadNextLine` does:
      it fails on the first byte that differs, and stops early (successfully)
      when the input ends inside the break. On success it gives the position
      after the break. */
  function MatchEnding(input: string, j: nat, ending: string): (r: Option<nat>)
    requires j < |input| && |ending| > 0
    ensures r.Some? ==> r.value == if j + |ending| <= |input| then j + |ending| else |input|
    decreases |ending|
  {
    if input[j] != ending[0] then None
    else if |ending| == 1 || j + 1 == |input| then Some(j + 1)
    else MatchEnding(input, j + 1, ending[1..])
  }

  /** `MatchEnding` succeeds exactly when every byte of the ending that the
      input still holds is there. */
  lemma {:induction false} MatchEndingShape(input: string, j: nat, ending: string)
    requires j < |input| && |ending| > 0
    ensures MatchEnding(input, j, ending).Some? <==>
      forall k :: 0 <= k < |ending| && j + k < |input| ==> input[j + k] == ending[k]
    decreases |ending|
  {
    if input[j] == ending[0] && |ending| > 1 && j + 1 < |input| {
      MatchEndingShape(input, j + 1, ending[1..]);
      assert forall k :: 1 <= k < |ending| ==> ending[k] == ending[1..][k - 1];
    }
  }

  /** A later line: its text and where the following line starts, or a
      mismatched break. */
  datatype LineRead = Line(text: string, next: nat) | Mismatch

  /** The line starting at `pos`, whose break must match `ending`. */
  function NextLine(input: string, pos: nat, ending: string): (r: LineRead)
    requires pos <= |input| && |ending| > 0
    ensures r.Line? ==> pos + |r.text| <= r.next <= |input|
    ensures r.Line? && pos < |input| ==> pos < r.next
  {
    var b := BreakIndex(input, pos);
    if b == |input| then
      Line(input[pos..], |input|)
    else
      match MatchEnding(input, b, ending)
      case None => Mismatch
      case Some(n) => Line(input[pos..b], n)
  }

  /** A later line is the input up to the next break, followed by as much
      of the canonical ending as the input holds; a line ends without a
      break only at the end of the input, and a mismatch needs a break. */
  lemma NextLineShape(input: string, pos: nat, ending: string)
    requires pos <= |input| && |ending| > 0
    ensures var r := NextLine(input, pos, ending);
      && (r.Line? ==> r.text == input[pos..pos + |r.text|])
      && (r.Line? && r.next == pos + |r.text| ==> r.next == |input|)
      && (r.Line? && r.next > pos + |r.text| ==>
            && input[pos + |r.text|..r.next] == ending[..r.next - pos - |r.text|]
            && (r.next - pos - |r.text| == |ending| || r.next == |input|))
      && (r.Line? ==> BreakFree(r.text))
      && (r.Mismatch? ==> !BreakFree(input[pos..]))
  {
    BreakIndexShape(input, pos);
    var b := BreakIndex(input, pos);
    if b < |input| {
      assert input[pos..][b - pos] == input[b];
      MatchEndingShape(input, b, ending);
      match MatchEnding(input, b, ending)
      case None =>
      case Some(n) =>
        assert input[b..n] == ending[..n - b];
    }
  }

  /** The physical lines of a document, and whether reading stopped at a
      break that does not match the canonical ending. */
  datatype Document = Document(lines: seq<string>, mismatched: bool)

  /** The lines from `pos` on, up to the end or to the first mismatched
      break; the line whose break mismatches is not part of the result. */
  function LinesFrom(input: string, pos: nat, ending: string): (r: Document)
    requires pos <= |input| && (pos < |input| ==> |ending| > 0)
    decreases |input| - pos
  {
    if pos == |input| then Document([], false)
    else
      match NextLine(input, pos, ending)
      case Mismatch => Document([], true)
      case Line(text, next) =>
        var rest := LinesFrom(input, next, ending);
        Document([text] + rest.lines, rest.mismatched)
  }

  /** All physical lines of the input: the first line, then every later line
      whose break matches the first one. */
  function Lines(input: string): (r: Document)
    ensures |r.lines| > 0
  {
    var first := FirstLine(input);
    var rest := LinesFrom(input, first.next, first.ending);
    Document([first.text] + rest.lines, rest.mismatched)
  }

  // ---------------------------------------------------------------------
  // Tokens
  // ---------------------------------------------------------------------

  /** The index of the first non-graphic byte at or after `from` (or `|s|`). */
  function GraphEnd(s: string, from: nat): (r: nat)
    requires from <= |s|
    ensures from <= r <= |s|
    ensures forall i :: from <= i < r ==> IsGraph(s[i])
    ensures r < |s| ==> !IsGraph(s[r])
    decreases |s| - from
  {
    if from == |s| || !IsGraph(s[from]) then from else GraphEnd(s, from + 1)
  }

  /** A token and the text after it. */
  datatype Cut = Cut(token: string, rest: string)

  /** The next token of a line: skip non-graphic bytes; nothing if none is
      left; a token starting with `#` is a comment and takes the rest of the
      line verbatim; any other token is a maximal run of graphic bytes. */
  function NextToken(text: string): (r: Option<Cut>)
    ensures r.Some? ==> |r.value.token| > 0 && IsGraph(r.value.token[0])
    ensures r.Some? ==> |r.value.token| + |r.value.rest| <= |text|
    decreases |text|
  {
    if text == [] then None
    else if !IsGraph(text[0]) then
      var r := NextToken(text[1..]);
      assert forall i :: 1 <= i < |text| ==> text[i] == text[1..][i - 1];
      r
    else if text[0] == '#' then Some(Cut(text, []))
    else
      var n := GraphEnd(text, 1);
      Some(Cut(text[..n], text[n..]))
  }

  /** What `NextToken` skips, takes and leaves: the bytes before the token
      are all non-graphic and the token and the rest follow them unchanged; a
      comment has no rest; any other token is graphic throughout and is
      followed by a non-graphic byte or by nothing. */
  lemma {:induction false} NextTokenNone(text: string)
    ensures NextToken(text).None? <==> forall i :: 0 <= i < |text| ==> !IsGraph(text[i])
    decreases |text|
  {
    if text != [] && !IsGraph(text[0]) {
      NextTokenNone(text[1..]);
      assert forall i :: 1 <= i < |text| ==> text[i] == text[1..][i - 1];
    }
  }

  lemma {:induction false} NextTokenShape(text: string)
    requires NextToken(text).Some?
    ensures var cut := NextToken(text).value;
      var skipped := |text| - |cut.token| - |cut.rest|;
      && text[skipped..] == cut.token + cut.rest
      && (forall i :: 0 <= i < skipped ==> !IsGraph(text[i]))
      && (cut.token[0] == '#' ==> cut.rest == [])
      && (cut.token[0] != '#' ==>
            && (forall i :: 0 <= i < |cut.token| ==> IsGraph(cut.token[i]))
            && (cut.rest == [] || !IsGraph(cut.rest[0])))
    decreases |text|
  {
    if !IsGraph(text[0]) {
      NextTokenShape(text[1..]);
      assert text[1..] == text[1..];
    } else if text[0] != '#' {
      var n := GraphEnd(text, 1);
      assert text[..n] + text[n..] == text;
    }
  }

  /** Every token of a line, in order. */
  function Tokens(text: string): seq<string>
    decreases |text|
  {
    match NextToken(text)
    case None => []
    case Some(cut) => [cut.token] + Tokens(cut.rest)
  }

  /** The tokens of several lines, line after line. */
  function TokensOf(lines: seq<string>): seq<string> {
    if lines == [] then [] else Tokens(lines[0]) + TokensOf(lines[1..])
  }

  // ---------------------------------------------------------------------
  // Events
  // ---------------------------------------------------------------------

  predicate IsComment(token: string) {
    |token| > 0 && token[0] == '#'
  }

  /** The events of a document, and the error that ends it if any. */
  datatype Scanned = Scanned(events: seq<Event>, trailing: Option<Error>)

  /** Turns tokens into events. A comment token gives its text without the
      `#`; value tokens are parsed and paired two by two, the first of a pair
      waiting in `pending`. An unparsable token ends the document with an
      error; otherwise the end of the tokens gives the mismatched-break error
      if reading stopped at one, then the odd-count error if a wavelength is
      still pending. */
  function Pairing(tokens: seq<string>, pending: Option<real>, mismatched: bool): (r: Scanned)
    decreases |tokens|
  {
    if tokens == [] then
      Scanned([], if mismatched then Some(MismatchedLineEndings)
                  else if pending.Some? then Some(OddNumberOfTokens)
                  else None)
    else if IsComment(tokens[0]) then
      var rest := Pairing(tokens[1..], pending, mismatched);
      Scanned([Comment(tokens[0][1..])] + rest.events, rest.trailing)
    else
      match ParseNumber(tokens[0])
      case None => Scanned([], Some(UnparsableToken))
      case Some(x) =>
        if pending.None? then Pairing(tokens[1..], Some(x), mismatched)
        else
          var rest := Pairing(tokens[1..], None, mismatched);
          Scanned([Sample(pending.value, x)] + rest.events, rest.trailing)
  }

  /** The events of a whole input. */
  function Scan(input: string): Scanned {
    var doc := Lines(input);
    Pairing(TokensOf(doc.lines), None, doc.mismatched)
  }

  function Then(events: seq<Event>, s: Scanned): Scanned {
    Scanned(events + s.events, s.trailing)
  }

  // ---------------------------------------------------------------------
  // The reader's loops
  // ---------------------------------------------------------------------

  /** `ReadFirstLine`: reads up to and including the first line break. */
  method ReadFirstLine(input: string) returns (r: FirstLineRead)
    ensures r == FirstLine(input)
  {
    var text := [];
    var i := 0;
    while i < |input|
      invariant 0 <= i <= |input|
      invariant text == input[..i]
      invariant BreakIndex(input, 0) == BreakIndex(input, i)
    {
      var c := input[i];
      i := i + 1;
      if c == '\r' || c == '\n' {
        var ending := [c];
        if c == '\r' && i < |input| && input[i] == '\n' {
          ending := ending + ['\n'];
          i := i + 1;
        }
        return FirstLineRead(text, ending, i);
      }
      text := text + [c];
    }
    assert text == input;
    return FirstLineRead(text, [], i);
  }

  /** `ReadNextLine`: reads one more line and checks its break, byte by byte,
      against the canonical ending. */
  method ReadNextLine(input: string, pos: nat, ending: string) returns (r: LineRead)
    requires pos <= |input| && |ending| > 0
    ensures r == NextLine(input, pos, ending)
  {
    var storage := [];
    var i := pos;
    while i < |input|
      invariant pos <= i <= |input|
      invariant storage == input[pos..i]
      invariant BreakIndex(input, pos) == BreakIndex(input, i)
    {
      var c := input[i];
      i := i + 1;
      if c == '\r' || c == '\n' {
        ghost var b := i - 1;
        assert BreakIndex(input, pos) == b;
        var rest := ending;
        while true
          invariant b < i <= |input| && c == input[i - 1]
          invariant 0 < |rest| && |ending| - |rest| == i - 1 - b
          invariant MatchEnding(input, i - 1, rest) == MatchEnding(input, b, ending)
          decreases |rest|
        {
          if c != rest[0] {
            return Mismatch;
          }
          rest := rest[1..];
          if rest == [] || i == |input| {
            break;
          }
          c := input[i];
          i := i + 1;
        }
        return Line(storage, i);
      }
      storage := storage + [c];
    }
    return Line(storage, i);
  }

  /** `ReadNextToken`: skips to the next token and takes it off the front of
      `text`; `rest` is what remains of the line. */
  method ReadNextToken(text: string) returns (token: Option<string>, rest: string)
    ensures token.None? ==> NextToken(text).None? && rest == []
    ensures token.Some? ==> NextToken(text) == Some(Cut(token.value, rest))
  {
    rest := text;
    while rest != []
      invariant NextToken(rest) == NextToken(text)
      decreases |rest|
    {
      if IsGraph(rest[0]) {
        break;
      }
      rest := rest[1..];
    }
    if rest == [] {
      return None, [];
    }
    if rest[0] == '#' {
      return Some(rest), [];
    }
    var length := 1;
    while length < |rest|
      invariant 1 <= length <= |rest|
      invariant GraphEnd(rest, 1) == GraphEnd(rest, length)
    {
      if !IsGraph(rest[length]) {
        break;
      }
      length := length + 1;
    }
    token := Some(rest[..length]);
    rest := rest[length..];
  }

  /** The body of the token loop of `SpdReader::ReadFrom`, for one token
      `t`: a comment becomes an event; a number either becomes the pending
      wavelength or completes a sample with it; anything else is unparsable.
      `later` and `mismatched` stand for the rest of the document. */
  method TakeToken(t: string, wavelength: Option<real>, ghost later: seq<string>, ghost mismatched: bool)
    returns (events: seq<Event>, pending: Option<real>, unparsable: bool)
    requires |t| > 0
    ensures Pairing([t] + later, wavelength, mismatched) ==
      Then(events, if unparsable then Scanned([], Some(UnparsableToken)) else Pairing(later, pending, mismatched))
  {
    assert ([t] + later)[0] == t && ([t] + later)[1..] == later;
    events, pending, unparsable := [], wavelength, false;
    if t[0] == '#' {
      events := [Comment(t[1..])];
      return;
    }
    var value := ParseNumber(t);
    if value.None? {
      unparsable := true;
      return;
    }
    if wavelength.None? {
      pending := value;
    } else {
      events := [Sample(wavelength.value, value.value)];
      pending := None;
    }
  }

  lemma ThenThen(a: seq<Event>, b: seq<Event>, s: Scanned)
    ensures Then(a + b, s) == Then(a, Then(b, s))
  {
    assert a + b + s.events == a + (b + s.events);
  }

  /** The tokens of a line, then those of the lines after it, are its
      next token followed by the rest. */
  lemma TokensAhead(text: string, tail: seq<string>)
    ensures NextToken(text).None? ==> Tokens(text) + tail == tail
    ensures NextToken(text).Some? ==>
      var cut := NextToken(text).value;
      Tokens(text) + tail == [cut.token] + (Tokens(cut.rest) + tail)
  {
    match NextToken(text)
    case None =>
    case Some(cut) =>
      Associate([cut.token], Tokens(cut.rest), tail);
  }

  lemma Associate<T>(a: seq<T>, b: seq<T>, c: seq<T>)
    ensures a + b + c == a + (b + c)
  {
  }

  /** The inner `for` loop of `SpdReader::ReadFrom`: takes the tokens of
      one line in turn. Comments and completed pairs become events; a value
      with no wavelength pending becomes the pending wavelength, which is
      handed back for the next line; an unparsable token stops the reader.
      `tail` and `mismatched` stand for the rest of the document. */
  method ReadLineEvents(line: string, wavelength: Option<real>, ghost tail: seq<string>, ghost mismatched: bool)
    returns (events: seq<Event>, pending: Option<real>, unparsable: bool)
    ensures Pairing(Tokens(line) + tail, wavelength, mismatched) ==
      Then(events, if unparsable then Scanned([], Some(UnparsableToken)) else Pairing(tail, pending, mismatched))
  {
    events, pending, unparsable := [], wavelength, false;
    ghost var goal := Pairing(Tokens(line) + tail, wavelength, mismatched);
    var rest := line;
    while true
      invariant Then(events, Pairing(Tokens(rest) + tail, pending, mismatched)) == goal
      decreases |rest|
    {
      var token, view := ReadNextToken(rest);
      TokensAhead(rest, tail);
      if token.None? {
        return;
      }
      ghost var later := Tokens(view) + tail;
      var found, unparsed;
      found, pending, unparsed := TakeToken(token.value, pending, later, mismatched);
      ThenThen(events, found, if unparsed then Scanned([], Some(UnparsableToken))
                              else Pairing(later, pending, mismatched));
      events := events + found;
      if unparsed {
        unparsable := true;
        return;
      }
      rest := view;
    }
  }

  /** What is still to come when the reader is inside the line `view`, the
      unread input starts at `pos`, and `pending` waits for its value. */
  ghost function Ahead(input: string, pos: nat, ending: string, view: string, pending: Option<real>): Scanned
    requires pos <= |input| && (pos < |input| ==> |ending| > 0)
  {
    var more := LinesFrom(input, pos, ending);
    Pairing(Tokens(view) + TokensOf(more.lines), pending, more.mismatched)
  }

  /** Reading one more line moves its tokens from the unread input into the
      current line; a mismatched break leaves nothing but the error. */
  lemma AheadNextLine(input: string, pos: nat, ending: string, pending: Option<real>)
    requires pos < |input| && |ending| > 0
    ensures match NextLine(input, pos, ending)
      case Mismatch => Ahead(input, pos, ending, [], pending) == Scanned([], Some(MismatchedLineEndings))
      case Line(text, next) => Ahead(input, pos, ending, [], pending) == Ahead(input, next, ending, text, pending)
  {
    assert Tokens([]) == [];
    match NextLine(input, pos, ending)
    case Mismatch =>
    case Line(text, next) =>
      var rest := LinesFrom(input, next, ending);
      assert LinesFrom(input, pos, ending).lines == [text] + rest.lines;
      assert TokensOf([text] + rest.lines) == Tokens(text) + TokensOf(rest.lines);
      assert Tokens([]) + TokensOf([text] + rest.lines) == TokensOf([text] + rest.lines);
  }

  /** Before the loop: the whole document is still ahead of the reader,
      inside its first line. */
  lemma AheadFirst(input: string)
    ensures var first := FirstLine(input);
      Ahead(input, first.next, first.ending, first.text, None) == Scan(input)
  {
    var first := FirstLine(input);
    var more := LinesFrom(input, first.next, first.ending);
    assert TokensOf([first.text] + more.lines) == Tokens(first.text) + TokensOf(more.lines);
  }

  /** Inside a line: its tokens come first, then those of the later lines;
      once the line is used up only the later lines are ahead. */
  lemma AheadInLine(input: string, pos: nat, ending: string, view: string, pending: Option<real>, next: Option<real>)
    requires pos <= |input| && (pos < |input| ==> |ending| > 0)
    ensures var more := LinesFrom(input, pos, ending);
      && Ahead(input, pos, ending, view, pending) == Pairing(Tokens(view) + TokensOf(more.lines), pending, more.mismatched)
      && Ahead(input, pos, ending, [], next) == Pairing(TokensOf(more.lines), next, more.mismatched)
  {
    assert Tokens([]) == [];
    assert [] + TokensOf(LinesFrom(input, pos, ending).lines) == TokensOf(LinesFrom(input, pos, ending).lines);
  }

  /** At the end of the input nothing is ahead but the odd-count check. */
  lemma AheadEnd(input: string, ending: string, pending: Option<real>)
    ensures Ahead(input, |input|, ending, [], pending) ==
      Scanned([], if pending.Some? then Some(OddNumberOfTokens) else None)
  {
    assert Tokens([]) == [];
    assert TokensOf([]) == [];
  }

  /** The `for (;;)` loop of `SpdReader::ReadFrom`: reads line after line and
      turns the tokens of each into events. The source invokes
      `HandleComment`/`HandleSample` where this loop records an event;
      `Dispatch` then invokes them in the same order. */
  method ReadEvents(input: string) returns (r: Scanned)
    ensures r == Scan(input)
  {
    var first := ReadFirstLine(input);
    var ending, pos, view := first.ending, first.next, first.text;
    var wavelength: Option<real> := None;
    var events: seq<Event> := [];
    ghost var goal := Scan(input);
    AheadFirst(input);
    while true
      invariant pos <= |input| && (pos < |input| ==> |ending| > 0)
      invariant Then(events, Ahead(input, pos, ending, view, wavelength)) == goal
      decreases |input| - pos, |view|
    {
      if view == [] {
        if pos == |input| {
          break;
        }
        AheadNextLine(input, pos, ending, wavelength);
        var line := ReadNextLine(input, pos, ending);
        if line.Mismatch? {
          return Scanned(events, Some(MismatchedLineEndings));
        }
        view, pos := line.text, line.next;
        continue;
      }
      ghost var more := LinesFrom(input, pos, ending);
      var found, pending, unparsable := ReadLineEvents(view, wavelength, TokensOf(more.lines), more.mismatched);
      AheadInLine(input, pos, ending, view, wavelength, pending);
      ThenThen(events, found, if unparsable then Scanned([], Some(UnparsableToken))
                              else Pairing(TokensOf(more.lines), pending, more.mismatched));
      events := events + found;
      if unparsable {
        return Scanned(events, Some(UnparsableToken));
      }
      view, wavelength := [], pending;
    }
    AheadEnd(input, ending, wavelength);
    return Scanned(events, if wavelength.Some? then Some(OddNumberOfTokens) else None);
  }

  // ---------------------------------------------------------------------
  // The extension points
  // ---------------------------------------------------------------------

  /** A handler's new state and its result. */
  datatype Step<S> = Step(state: S, outcome: Outcome)

  /** The two extension points of the reader, `HandleComment` and
      `HandleSample`, as functions of the state of the reader that
      implements them. */
  datatype Handlers<!S> = Handlers(comment: (S, string) -> Step<S>, sample: (S, real, real) -> Step<S>)

  function Handle<S>(h: Handlers<S>, s: S, e: Event): Step<S> {
    match e
    case Comment(text) => h.comment(s, text)
    case Sample(wavelength, value) => h.sample(s, wavelength, value)
  }

  /** Hands the events to the handlers in order. The first handler that
      fails ends the reading with its error; if none fails, the result is
      the error that ended the document, if any. */
  function Dispatch<S>(h: Handlers<S>, s: S, events: seq<Event>, trailing: Option<Error>): (r: Step<S>)
    ensures events == [] ==> r.state == s
    ensures r.outcome.Pass? ==> trailing.None?
    decreases |events|
  {
    if events == [] then
      Step(s, if trailing.Some? then Fail(trailing.value) else Pass)
    else
      var step := Handle(h, s, events[0]);
      if step.outcome.Fail? then step else Dispatch(h, step.state, events[1..], trailing)
  }

  /** Dispatching from the `i`-th event on: that event is handled, and
      unless it failed the reading goes on from the next one. */
  lemma DispatchAt<S>(h: Handlers<S>, s: S, events: seq<Event>, i: nat, trailing: Option<Error>)
    requires i <= |events|
    ensures Dispatch(h, s, events[i..], trailing) ==
      if i == |events| then Step(s, if trailing.Some? then Fail(trailing.value) else Pass)
      else
        var step := Handle(h, s, events[i]);
        if step.outcome.Fail? then step else Dispatch(h, step.state, events[i + 1..], trailing)
  {
    if i < |events| {
      assert events[i..][0] == events[i] && events[i..][1..] == events[i + 1..];
    }
  }

  /** `SpdReader::ReadFrom` as a whole: a stream that has already failed is
      rejected; otherwise the document's events go to the handlers. */
  function Read<S>(h: Handlers<S>, s: S, input: Stream): Step<S> {
    match input
    case Bad => Step(s, Fail(BadStream))
    case Good(bytes) =>
      var scanned := Scan(bytes);
      Dispatch(h, s, scanned.events, scanned.trailing)
  }
}
