/** Properties of the base reader: how line breaks decide the lines, how
    tokens become events in document order, and how the handlers' results
    decide the outcome. */
module SpdReaderLemmas {
  import opened SpdErrors
  import opened CharConv
  import opened SpdReader

  // ---------------------------------------------------------------------
  // Line endings
  // ---------------------------------------------------------------------

  /** A document written with every line followed by the break `e`. */
  function Terminated(lines: seq<string>, e: string): (r: string)
    ensures lines != [] && e != [] ==> r != []
  {
    if lines == [] then [] else lines[0] + e + Terminated(lines[1..], e)
  }

  predicate AllBreakFree(lines: seq<string>) {
    forall i :: 0 <= i < |lines| ==> BreakFree(lines[i])
  }

  /** The middle of a concatenation. */
  lemma Middle(a: string, b: string, c: string)
    ensures (a + b + c)[|a|..|a| + |b|] == b
  {
  }

  lemma ConsAppend<T>(xs: seq<T>, ys: seq<T>)
    requires xs != []
    ensures [xs[0]] + (xs[1..] + ys) == xs + ys
  {
    assert xs == [xs[0]] + xs[1..];
  }

  /** The bytes of `line` followed by `e` sit in `input` at `pos`. */
  ghost predicate LineAt(input: string, pos: nat, line: string, e: string) {
    pos + |line| + |e| <= |input| && input[pos..pos + |line| + |e|] == line + e
  }

  /** A line without breaks followed by a break is read up to that break:
      the first break after `pos` is the one that ends the line. */
  lemma BreakAfterLine(input: string, pos: nat, line: string)
    requires pos + |line| < |input| && input[pos..pos + |line| + 1] == line + [input[pos + |line|]]
    requires BreakFree(line) && IsBreak(input[pos + |line|])
    ensures BreakIndex(input, pos) == pos + |line|
  {
    BreakIndexShape(input, pos);
  }

  /** A line followed by the canonical ending is read as that line, and the
      next line starts after the ending. */
  lemma NextLineAt(input: string, pos: nat, line: string, e: string)
    requires e != [] && IsBreak(e[0]) && BreakFree(line) && LineAt(input, pos, line, e)
    ensures NextLine(input, pos, e) == Line(line, pos + |line| + |e|)
  {
    var b := pos + |line|;
    var w := input[pos..b + |e|];
    assert w == line + e;
    assert input[pos..b] == w[..|line|] == line;
    assert input[b] == w[|line|] == e[0];
    assert input[pos..b + 1] == input[pos..b] + [input[b]];
    BreakAfterLine(input, pos, line);
    forall k | 0 <= k < |e| ensures input[b + k] == e[k] {
      assert input[b + k] == w[|line| + k];
    }
    MatchEndingShape(input, b, e);
  }

  /** One step of `LinesFrom`: a line that is read is followed by the lines
      after it. */
  lemma LinesFromLine(input: string, pos: nat, e: string)
    requires pos < |input| && |e| > 0 && NextLine(input, pos, e).Line?
    ensures var line := NextLine(input, pos, e);
      var rest := LinesFrom(input, line.next, e);
      LinesFrom(input, pos, e) == Document([line.text] + rest.lines, rest.mismatched)
  {
  }

  /** `lines`, each followed by `e`, sit in `input` from `pos` to `stop`. */
  ghost predicate WrittenAt(input: string, pos: nat, lines: seq<string>, e: string, stop: nat)
    decreases |lines|
  {
    && pos <= |input|
    && (lines == [] ==> pos == stop)
    && (lines != [] ==>
          LineAt(input, pos, lines[0], e) && WrittenAt(input, pos + |lines[0]| + |e|, lines[1..], e, stop))
  }

  /** `lines` are read one after the other from `pos`, and the next one
      would start at `stop`. */
  ghost predicate ReadsLines(input: string, pos: nat, e: string, lines: seq<string>, stop: nat)
    decreases |lines|
  {
    && pos <= |input| && |e| > 0
    && (lines == [] ==> pos == stop)
    && (lines != [] ==>
          && pos < |input| && NextLine(input, pos, e).Line? && NextLine(input, pos, e).text == lines[0]
          && ReadsLines(input, NextLine(input, pos, e).next, e, lines[1..], stop))
  }

  lemma AllBreakFreeTail(lines: seq<string>)
    requires lines != [] && AllBreakFree(lines)
    ensures BreakFree(lines[0]) && AllBreakFree(lines[1..])
  {
    forall i | 0 <= i < |lines[1..]| ensures BreakFree(lines[1..][i]) {
      assert lines[1..][i] == lines[i + 1];
    }
  }

  /** Written lines are read back one by one. */
  lemma {:induction false} WrittenReads(input: string, pos: nat, lines: seq<string>, e: string, stop: nat)
    requires e != [] && IsBreak(e[0]) && AllBreakFree(lines)
    requires WrittenAt(input, pos, lines, e, stop)
    ensures ReadsLines(input, pos, e, lines, stop)
    decreases |lines|
  {
    if lines != [] {
      var next := pos + |lines[0]| + |e|;
      AllBreakFreeTail(lines);
      NextLineAt(input, pos, lines[0], e);
      WrittenReads(input, next, lines[1..], e, stop);
    }
  }

  /** Lines read one after the other come first in `LinesFrom`. */
  lemma {:induction false} LinesFromReads(input: string, pos: nat, e: string, lines: seq<string>, stop: nat)
    requires ReadsLines(input, pos, e, lines, stop)
    ensures stop <= |input|
    ensures var after := LinesFrom(input, stop, e);
      LinesFrom(input, pos, e) == Document(lines + after.lines, after.mismatched)
    decreases |lines|
  {
    if lines == [] {
      assert lines + LinesFrom(input, stop, e).lines == LinesFrom(input, stop, e).lines;
    } else {
      var next := NextLine(input, pos, e).next;
      LinesFromReads(input, next, e, lines[1..], stop);
      LinesFromLine(input, pos, e);
      ConsAppend(lines, LinesFrom(input, stop, e).lines);
    }
  }

  /** The lines of `Terminated` sit where they were written. */
  lemma {:induction false} TerminatedWritten(prefix: string, lines: seq<string>, e: string, suffix: string)
    ensures WrittenAt(prefix + Terminated(lines, e) + suffix, |prefix|, lines, e, |prefix| + |Terminated(lines, e)|)
    decreases |lines|
  {
    var input := prefix + Terminated(lines, e) + suffix;
    if lines != [] {
      var line, more := lines[0], Terminated(lines[1..], e);
      assert Terminated(lines, e) == line + e + more;
      assert input == (prefix + line + e) + more + suffix;
      assert input[|prefix|..|prefix| + |line| + |e|] == line + e;
      TerminatedWritten(prefix + line + e, lines[1..], e, suffix);
    }
  }

  /** The first line, when it ends with one of the three breaks: a lone CR
      counts as the whole break unless an LF follows it. */
  lemma FirstLineAt(input: string, line: string, e: string)
    requires IsLineEnding(e) && BreakFree(line) && LineAt(input, 0, line, e)
    requires e == "\r" ==> |input| == |line| + 1 || input[|line| + 1] != '\n'
    ensures FirstLine(input) == FirstLineRead(line, e, |line| + |e|)
  {
    var b := |line|;
    assert input[b] == (line + e)[b] == e[0];
    assert input[0..b + 1] == line + [input[b]] by {
      assert input[0..b + 1] == input[0..b + |e|][..b + 1];
    }
    BreakAfterLine(input, 0, line);
    if e == "\r\n" {
      assert input[b + 1] == (line + e)[b + 1];
    }
    assert input[..b] == input[0..b + |e|][..b] == line;
  }

  /** Whether a lone CR ending the first line could be read as the start of
      a CRLF: only if an LF follows it. */
  predicate CrlfAhead(input: string, line: string, e: string) {
    e == "\r" && |input| > |line| + 1 && input[|line| + 1] == '\n'
  }

  /** A document whose lines all end with the same break `e`: the reader
      takes `e` as the canonical ending and reads the lines back, then goes
      on from where they stop. */
  lemma LinesOfWritten(input: string, lines: seq<string>, e: string, stop: nat)
    requires IsLineEnding(e) && AllBreakFree(lines) && |lines| > 0
    requires WrittenAt(input, 0, lines, e, stop) && !CrlfAhead(input, lines[0], e)
    ensures stop <= |input|
    ensures var after := LinesFrom(input, stop, e);
      Lines(input) == Document(lines + after.lines, after.mismatched)
  {
    AllBreakFreeTail(lines);
    FirstLineAt(input, lines[0], e);
    var next := |lines[0]| + |e|;
    WrittenReads(input, next, lines[1..], e, stop);
    LinesFromReads(input, next, e, lines[1..], stop);
    ConsAppend(lines, LinesFrom(input, stop, e).lines);
  }

  lemma WrittenTerminated(lines: seq<string>, e: string, tail: string)
    ensures WrittenAt(Terminated(lines, e) + tail, 0, lines, e, |Terminated(lines, e)|)
  {
    TerminatedWritten([], lines, e, tail);
    assert [] + Terminated(lines, e) + tail == Terminated(lines, e) + tail;
  }

  /** When the lines are written with CR, an LF can follow the first line's
      CR only if that line is the only one and an LF follows the lines. */
  lemma NoCrlfAhead(input: string, lines: seq<string>, e: string, stop: nat)
    requires IsLineEnding(e) && AllBreakFree(lines) && |lines| > 0
    requires WrittenAt(input, 0, lines, e, stop)
    requires e == "\r" && |lines| == 1 && stop < |input| ==> input[stop] != '\n'
    ensures !CrlfAhead(input, lines[0], e)
  {
    var next := |lines[0]| + |e|;
    if e == "\r" && |input| > next {
      if |lines| > 1 {
        AllBreakFreeTail(lines);
        AllBreakFreeTail(lines[1..]);
        var w := input[next..next + |lines[1]| + |e|];
        assert input[next] == w[0] == (lines[1] + e)[0];
      }
    }
  }

  /** A document whose lines all end with the same break is read as exactly
      those lines, whichever of the three breaks it uses. */
  lemma LinesOfTerminated(lines: seq<string>, e: string)
    requires IsLineEnding(e) && AllBreakFree(lines) && |lines| > 0
    ensures Lines(Terminated(lines, e)) == Document(lines, false)
  {
    var input := Terminated(lines, e);
    assert input + [] == input;
    WrittenTerminated(lines, e, []);
    NoCrlfAhead(input, lines, e, |input|);
    LinesOfWritten(input, lines, e, |input|);
    assert lines + [] == lines;
  }

  /** A last line without a break is read as it is. */
  lemma LastLine(input: string, pos: nat, last: string, e: string)
    requires pos < |input| && input[pos..] == last && BreakFree(last) && |e| > 0
    ensures LinesFrom(input, pos, e) == Document([last], false)
  {
    BreakIndexShape(input, pos);
    assert forall i :: pos <= i < |input| ==> input[i] == last[i - pos];
    assert NextLine(input, pos, e) == Line(last, |input|);
    assert LinesFrom(input, |input|, e) == Document([], false);
  }

  /** The same document followed by a last line that has no break of its
      own: that line is read as well, still with no mismatch. */
  lemma LinesOfTerminatedThen(lines: seq<string>, e: string, last: string)
    requires IsLineEnding(e) && AllBreakFree(lines) && |lines| > 0
    requires BreakFree(last) && last != []
    ensures Lines(Terminated(lines, e) + last) == Document(lines + [last], false)
  {
    var t := Terminated(lines, e);
    var input := t + last;
    WrittenTerminated(lines, e, last);
    assert input[|t|] == last[0];
    NoCrlfAhead(input, lines, e, |t|);
    LinesOfWritten(input, lines, e, |t|);
    assert input[|t|..] == last;
    LastLine(input, |t|, last, e);
  }

  /** The tokens of one more line come after those of the lines before it. */
  lemma {:induction false} TokensOfSnoc(lines: seq<string>, last: string)
    ensures TokensOf(lines + [last]) == TokensOf(lines) + Tokens(last)
    decreases |lines|
  {
    if lines == [] {
      TokensOfOne(last);
      assert [] + [last] == [last];
    } else {
      var longer := lines + [last];
      assert longer[0] == lines[0] && longer[1..] == lines[1..] + [last];
      var first := Tokens(lines[0]);
      assert TokensOf(longer) == first + TokensOf(lines[1..] + [last]);
      TokensOfSnoc(lines[1..], last);
      Associate(first, TokensOf(lines[1..]), Tokens(last));
    }
  }

  /** The events of a document whose lines all end with the same break, and
      which may end with one more line without a break, are those of its
      lines' tokens. */
  lemma ScanTerminated(lines: seq<string>, e: string, last: string)
    requires IsLineEnding(e) && AllBreakFree(lines) && |lines| > 0 && BreakFree(last)
    ensures Scan(Terminated(lines, e) + last) == Pairing(TokensOf(lines) + Tokens(last), None, false)
  {
    if last == [] {
      assert Terminated(lines, e) + last == Terminated(lines, e);
      LinesOfTerminated(lines, e);
      assert Tokens(last) == [];
      assert TokensOf(lines) + Tokens(last) == TokensOf(lines);
    } else {
      LinesOfTerminatedThen(lines, e, last);
      TokensOfSnoc(lines, last);
    }
  }

  /** LF, CR and CRLF versions of the same document give the same events and
      the same outcome, whether or not its last line has a break. */
  lemma LineEndingsAgree(lines: seq<string>, last: string)
    requires AllBreakFree(lines) && |lines| > 0 && BreakFree(last)
    ensures Scan(Terminated(lines, "\n") + last) == Scan(Terminated(lines, "\r") + last)
    ensures Scan(Terminated(lines, "\r") + last) == Scan(Terminated(lines, "\r\n") + last)
  {
    ScanTerminated(lines, "\n", last);
    ScanTerminated(lines, "\r", last);
    ScanTerminated(lines, "\r\n", last);
  }

  /** A break at the end of `line` that does not start like the canonical
      ending is a mismatch. */
  lemma MismatchAt(input: string, pos: nat, line: string, e: string)
    requires pos + |line| < |input| && input[pos..pos + |line| + 1] == line + [input[pos + |line|]]
    requires BreakFree(line) && IsBreak(input[pos + |line|]) && |e| > 0
    requires MatchEnding(input, pos + |line|, e).None?
    ensures LinesFrom(input, pos, e) == Document([], true)
  {
    BreakAfterLine(input, pos, line);
  }

  /** A later break that differs from the canonical ending stops the reader
      with the mismatched-line-endings error: the line before that break and
      everything after it are never tokenized. */
  lemma MismatchedBreakStops(lines: seq<string>, e: string, line: string, c: char, tail: string)
    requires IsLineEnding(e) && AllBreakFree(lines) && |lines| > 0
    requires BreakFree(line) && IsBreak(c) && c != e[0]
    requires e == "\r" && |lines| == 1 ==> line != []
    ensures Scan(Terminated(lines, e) + line + [c] + tail) == Pairing(TokensOf(lines), None, true)
  {
    var t := Terminated(lines, e);
    var input := t + (line + [c]) + tail;
    Associate(t, line, [c]);
    Associate(t, line + [c], tail);
    Middle(t, line + [c], tail);
    if e == "\r" && |lines| == 1 {
      assert (line + [c] + tail)[0] == line[0];
    }
    WrittenTerminated(lines, e, line + [c] + tail);
    NoCrlfAhead(input, lines, e, |t|);
    LinesOfWritten(input, lines, e, |t|);
    MismatchAt(input, |t|, line, e);
    assert lines + [] == lines;
  }

  lemma Regroup<T>(a: seq<T>, b: seq<T>, x: T, y: T, d: seq<T>)
    ensures a + b + [x, y] + d == a + (b + [x]) + ([y] + d)
    ensures a + (b + [x, y] + d) == a + (b + [x]) + ([y] + d)
  {
    assert [x, y] == [x] + [y];
  }

  /** With CRLF as the canonical ending, a CR that is followed by anything
      but LF is a mismatched break. */
  lemma LoneCarriageReturnMismatches(lines: seq<string>, line: string, c: char, tail: string)
    requires AllBreakFree(lines) && |lines| > 0 && BreakFree(line) && c != '\n'
    ensures Scan(Terminated(lines, "\r\n") + line + ['\r', c] + tail) == Pairing(TokensOf(lines), None, true)
  {
    var t := Terminated(lines, "\r\n");
    var input := t + (line + ['\r']) + ([c] + tail);
    Regroup(t, line, '\r', c, tail);
    Middle(t, line + ['\r'], [c] + tail);
    var b := |t| + |line|;
    var front := t + (line + ['\r']);
    assert |front| == b + 1 && input == front + ([c] + tail);
    assert input[b + 1] == ([c] + tail)[0] == c;
    MatchEndingShape(input, b, "\r\n");
    WrittenTerminated(lines, "\r\n", line + ['\r', c] + tail);
    NoCrlfAhead(input, lines, "\r\n", |t|);
    LinesOfWritten(input, lines, "\r\n", |t|);
    MismatchAt(input, |t|, line, "\r\n");
    assert lines + [] == lines;
  }

  /** With CRLF as the canonical ending, a CR that is the last byte of the
      input is accepted as the final break: the do-while loop of
      `ReadNextLine` stops at the end of the input. */
  lemma TrailingCarriageReturnAccepted(lines: seq<string>, line: string)
    requires AllBreakFree(lines) && |lines| > 0 && BreakFree(line)
    ensures Lines(Terminated(lines, "\r\n") + line + ['\r']) == Document(lines + [line], false)
  {
    var t := Terminated(lines, "\r\n");
    var input := t + (line + ['\r']) + [];
    assert t + line + ['\r'] == input;
    Middle(t, line + ['\r'], []);
    assert input[|t|..|t| + |line|] == line;
    assert t + (line + ['\r']) == input;
    WrittenTerminated(lines, "\r\n", line + ['\r']);
    NoCrlfAhead(input, lines, "\r\n", |t|);
    LinesOfWritten(input, lines, "\r\n", |t|);
    FinalLine(input, |t|, line, "\r\n");
  }

  /** A last line whose break is cut short by the end of the input. */
  lemma FinalLine(input: string, pos: nat, line: string, e: string)
    requires pos + |line| + 1 == |input| && input[pos..pos + |line| + 1] == line + [input[pos + |line|]]
    requires BreakFree(line) && IsBreak(input[pos + |line|]) && |e| > 0 && e[0] == input[pos + |line|]
    ensures LinesFrom(input, pos, e) == Document([line], false)
  {
    BreakAfterLine(input, pos, line);
    assert input[pos..pos + |line|] == input[pos..pos + |line| + 1][..|line|] == line;
    assert LinesFrom(input, |input|, e) == Document([], false);
  }

  // ---------------------------------------------------------------------
  // Pairing in document order
  // ---------------------------------------------------------------------

  /** The value tokens of a document, parsed in order, or `None` if one of
      them is not a number. Comment tokens are skipped. */
  function Numbers(tokens: seq<string>): Option<seq<real>> {
    if tokens == [] then Some([])
    else if IsComment(tokens[0]) then Numbers(tokens[1..])
    else
      match ParseNumber(tokens[0])
      case None => None
      case Some(x) =>
        match Numbers(tokens[1..])
        case None => None
        case Some(xs) => Some([x] + xs)
  }

  /** The texts of the comment tokens, in order, without their `#`. */
  function Comments(tokens: seq<string>): seq<string> {
    if tokens == [] then []
    else (if IsComment(tokens[0]) then [tokens[0][1..]] else []) + Comments(tokens[1..])
  }

  /** Consecutive numbers taken two by two; a last odd one is left over. */
  function Pairs(xs: seq<real>): seq<(real, real)> {
    if |xs| < 2 then [] else [(xs[0], xs[1])] + Pairs(xs[2..])
  }

  function SamplesOf(events: seq<Event>): seq<(real, real)> {
    if events == [] then []
    else (if events[0].Sample? then [(events[0].wavelength, events[0].value)] else []) + SamplesOf(events[1..])
  }

  function CommentsOf(events: seq<Event>): seq<string> {
    if events == [] then []
    else (if events[0].Comment? then [events[0].text] else []) + CommentsOf(events[1..])
  }

  lemma OfCons(e: Event, events: seq<Event>)
    ensures SamplesOf([e] + events) == (if e.Sample? then [(e.wavelength, e.value)] else []) + SamplesOf(events)
    ensures CommentsOf([e] + events) == (if e.Comment? then [e.text] else []) + CommentsOf(events)
  {
    assert ([e] + events)[0] == e && ([e] + events)[1..] == events;
  }

  /** How a document ends: a token that is not a number ends it with the
      unparsable-token error; otherwise with the mismatched-break error if
      reading stopped at one, else with the odd-count error exactly when a
      number is left without a partner. A wavelength left pending before the
      tokens (`pending`) counts as the first of the numbers. */
  lemma {:induction false} PairingEnds(tokens: seq<string>, pending: Option<real>, mismatched: bool)
    ensures var r := Pairing(tokens, pending, mismatched);
      var before := if pending.Some? then 1 else 0;
      match Numbers(tokens)
      case None => r.trailing == Some(UnparsableToken)
      case Some(xs) =>
        r.trailing == if mismatched then Some(MismatchedLineEndings)
                      else if (before + |xs|) % 2 == 1 then Some(OddNumberOfTokens)
                      else None
    decreases |tokens|
  {
    if tokens != [] {
      var t, later := tokens[0], tokens[1..];
      if IsComment(t) {
        PairingEnds(later, pending, mismatched);
        assert Numbers(tokens) == Numbers(later);
        assert Pairing(tokens, pending, mismatched).trailing == Pairing(later, pending, mismatched).trailing;
      } else if ParseNumber(t).Some? {
        var x := ParseNumber(t).value;
        var next := if pending.None? then Some(x) else None;
        PairingEnds(later, next, mismatched);
        assert Pairing(tokens, pending, mismatched).trailing == Pairing(later, next, mismatched).trailing;
        if Numbers(later).Some? {
          assert Numbers(tokens).value == [x] + Numbers(later).value;
        }
      }
    }
  }

  /** Pairing reads the value tokens two by two in document order, whatever
      comments and line breaks come between them, the pending wavelength
      first; every sample is forwarded as written, negative or repeated
      wavelengths included. */
  lemma {:induction false} PairingSamples(tokens: seq<string>, pending: Option<real>, mismatched: bool)
    requires Numbers(tokens).Some?
    ensures var before := if pending.Some? then [pending.value] else [];
      SamplesOf(Pairing(tokens, pending, mismatched).events) == Pairs(before + Numbers(tokens).value)
    decreases |tokens|
  {
    if tokens == [] {
      return;
    }
    var t, later := tokens[0], tokens[1..];
    if IsComment(t) {
      PairingSamples(later, pending, mismatched);
      var rest := Pairing(later, pending, mismatched);
      OfCons(Comment(t[1..]), rest.events);
    } else {
      var x := ParseNumber(t).value;
      var xs := Numbers(later).value;
      assert Numbers(tokens).value == [x] + xs;
      if pending.None? {
        PairingSamples(later, Some(x), mismatched);
        assert [] + ([x] + xs) == [x] + xs;
      } else {
        PairingSamples(later, None, mismatched);
        var rest := Pairing(later, None, mismatched);
        OfCons(Sample(pending.value, x), rest.events);
        assert ([pending.value] + ([x] + xs))[2..] == [] + xs;
      }
    }
  }

  /** When every value token is a number, the comments come through in
      document order, all of them. */
  lemma {:induction false} PairingComments(tokens: seq<string>, pending: Option<real>, mismatched: bool)
    requires Numbers(tokens).Some?
    ensures CommentsOf(Pairing(tokens, pending, mismatched).events) == Comments(tokens)
    decreases |tokens|
  {
    if tokens == [] {
      return;
    }
    var t, later := tokens[0], tokens[1..];
    if IsComment(t) {
      PairingComments(later, pending, mismatched);
      var rest := Pairing(later, pending, mismatched);
      assert Pairing(tokens, pending, mismatched).events == [Comment(t[1..])] + rest.events;
      OfCons(Comment(t[1..]), rest.events);
      assert Comments(tokens) == [t[1..]] + Comments(later);
    } else {
      var x := ParseNumber(t).value;
      assert Comments(tokens) == [] + Comments(later);
      assert [] + Comments(later) == Comments(later);
      if pending.None? {
        PairingComments(later, Some(x), mismatched);
        assert Pairing(tokens, pending, mismatched) == Pairing(later, Some(x), mismatched);
      } else {
        PairingComments(later, None, mismatched);
        var rest := Pairing(later, None, mismatched);
        assert Pairing(tokens, pending, mismatched).events == [Sample(pending.value, x)] + rest.events;
        OfCons(Sample(pending.value, x), rest.events);
        assert [] + CommentsOf(rest.events) == CommentsOf(rest.events);
      }
    }
  }

  /** The same for a whole input: the samples are the numbers of the
      document read two by two, and the comments are its comment tokens. */
  lemma ScanInOrder(input: string)
    ensures var tokens := TokensOf(Lines(input).lines);
      var r := Scan(input);
      match Numbers(tokens)
      case None => r.trailing == Some(UnparsableToken)
      case Some(xs) =>
        && SamplesOf(r.events) == Pairs(xs)
        && CommentsOf(r.events) == Comments(tokens)
        && r.trailing == if Lines(input).mismatched then Some(MismatchedLineEndings)
                         else if |xs| % 2 == 1 then Some(OddNumberOfTokens)
                         else None
  {
    var tokens := TokensOf(Lines(input).lines);
    PairingEnds(tokens, None, Lines(input).mismatched);
    if Numbers(tokens).Some? {
      PairingSamples(tokens, None, Lines(input).mismatched);
      PairingComments(tokens, None, Lines(input).mismatched);
      assert [] + Numbers(tokens).value == Numbers(tokens).value;
    }
  }

  // ---------------------------------------------------------------------
  // Handlers
  // ---------------------------------------------------------------------

  /** An empty input has no events and no error: it is accepted without a
      single call to either handler. */
  lemma EmptyInputHandlesNothing<S>(h: Handlers<S>, s: S)
    ensures Scan([]) == Scanned([], None)
    ensures Read(h, s, Good([])) == Step(s, Pass)
  {
    assert FirstLine([]) == FirstLineRead([], [], 0);
    assert Lines([]).lines == [[]];
    assert NextToken([]).None?;
    assert TokensOf([[]]) == Tokens([]) + TokensOf([]);
  }

  /** The handlers see the events in order: reading `a + b` is reading `a`
      and, unless a handler failed there, going on with `b` from the state
      `a` left. So a handler's error is the result, verbatim, and no later
      event is handled. */
  lemma {:induction false} DispatchAppend<S>(h: Handlers<S>, s: S, a: seq<Event>, b: seq<Event>, trailing: Option<Error>)
    ensures Dispatch(h, s, a + b, trailing) ==
      var r := Dispatch(h, s, a, None);
      if r.outcome.Fail? then r else Dispatch(h, r.state, b, trailing)
    decreases |a|
  {
    if a == [] {
      assert a + b == b;
    } else {
      assert (a + b)[0] == a[0] && (a + b)[1..] == a[1..] + b;
      var step := Handle(h, s, a[0]);
      if step.outcome.Pass? {
        DispatchAppend(h, step.state, a[1..], b, trailing);
      }
    }
  }

  // ---------------------------------------------------------------------
  // Tokens of simple lines
  // ---------------------------------------------------------------------

  predicate AllGraph(s: string) {
    forall i :: 0 <= i < |s| ==> IsGraph(s[i])
  }

  /** A word (graphic bytes, not starting a comment) followed by a
      non-graphic byte or by nothing is the next token. */
  lemma TokensOfWord(a: string, rest: string)
    requires a != [] && a[0] != '#' && AllGraph(a) && (rest == [] || !IsGraph(rest[0]))
    ensures Tokens(a + rest) == [a] + Tokens(rest)
  {
    var s := a + rest;
    var n := GraphEnd(s, 1);
    assert forall i :: 0 <= i < |a| ==> s[i] == a[i];
    assert |a| < |s| ==> s[|a|] == rest[0];
    assert n == |a|;
    assert s[..n] == a && s[n..] == rest;
  }

  /** Non-graphic bytes before a token are skipped. */
  lemma TokensOfSpace(c: char, rest: string)
    requires !IsGraph(c)
    ensures Tokens([c] + rest) == Tokens(rest)
  {
    assert ([c] + rest)[1..] == rest;
  }

  /** A comment token takes the rest of the line, spaces and later `#`
      included. */
  lemma TokensOfComment(text: string)
    requires |text| > 0 && text[0] == '#'
    ensures Tokens(text) == [text]
  {
    assert NextToken(text) == Some(Cut(text, []));
  }

  /** A line holding two words separated by one space. */
  lemma TokensOfPair(a: string, b: string)
    requires a != [] && a[0] != '#' && AllGraph(a)
    requires b != [] && b[0] != '#' && AllGraph(b)
    ensures Tokens(a + " " + b) == [a, b]
  {
    var spaced := [' '] + b;
    assert spaced[0] == ' ';
    assert a + " " + b == a + spaced;
    TokensOfWord(a, spaced);
    TokensOfSpace(' ', b);
    TokensOfWord(b, []);
    assert b + [] == b;
    assert Tokens([]) == [];
    assert [a] + ([b] + []) == [a, b];
  }

  lemma TokensOfCons(line: string, lines: seq<string>)
    ensures TokensOf([line] + lines) == Tokens(line) + TokensOf(lines)
  {
    assert ([line] + lines)[0] == line && ([line] + lines)[1..] == lines;
  }

  lemma TokensOfOne(line: string)
    ensures TokensOf([line]) == Tokens(line)
  {
    TokensOfCons(line, []);
    assert [line] + [] == [line] && Tokens(line) + [] == Tokens(line);
  }

  /** The tokens of a four-line document, line by line. */
  lemma TokensOfFour(l0: string, l1: string, l2: string, l3: string)
    ensures TokensOf([l0, l1, l2, l3]) == Tokens(l0) + (Tokens(l1) + (Tokens(l2) + Tokens(l3)))
  {
    TokensOfOne(l3);
    TokensOfCons(l2, [l3]);
    TokensOfCons(l1, [l2, l3]);
    TokensOfCons(l0, [l1, l2, l3]);
    assert [l2] + [l3] == [l2, l3];
    assert [l1] + [l2, l3] == [l1, l2, l3];
    assert [l0] + [l1, l2, l3] == [l0, l1, l2, l3];
  }

  /** A comment line followed by three lines of two words each, the shape
      of the well-formed test documents. */
  lemma TokensOfCommentAndPairs(c: string, a1: string, b1: string, a2: string, b2: string, a3: string, b3: string)
    requires |c| > 0 && c[0] == '#'
    requires a1 != [] && a1[0] != '#' && AllGraph(a1) && b1 != [] && b1[0] != '#' && AllGraph(b1)
    requires a2 != [] && a2[0] != '#' && AllGraph(a2) && b2 != [] && b2[0] != '#' && AllGraph(b2)
    requires a3 != [] && a3[0] != '#' && AllGraph(a3) && b3 != [] && b3[0] != '#' && AllGraph(b3)
    ensures TokensOf([c, a1 + " " + b1, a2 + " " + b2, a3 + " " + b3]) == [c, a1, b1, a2, b2, a3, b3]
  {
    TokensOfComment(c);
    TokensOfPair(a1, b1);
    TokensOfPair(a2, b2);
    TokensOfPair(a3, b3);
    TokensOfFour(c, a1 + " " + b1, a2 + " " + b2, a3 + " " + b3);
  }

  /** One and two lines of two words each. */
  lemma TokensOfPairLines(a1: string, b1: string, a2: string, b2: string)
    requires a1 != [] && a1[0] != '#' && AllGraph(a1) && b1 != [] && b1[0] != '#' && AllGraph(b1)
    requires a2 != [] && a2[0] != '#' && AllGraph(a2) && b2 != [] && b2[0] != '#' && AllGraph(b2)
    ensures TokensOf([a1 + " " + b1]) == [a1, b1]
    ensures TokensOf([a1 + " " + b1, a2 + " " + b2]) == [a1, b1, a2, b2]
  {
    var l1, l2 := a1 + " " + b1, a2 + " " + b2;
    TokensOfPair(a1, b1);
    TokensOfPair(a2, b2);
    TokensOfOne(l1);
    TokensOfOne(l2);
    TokensOfCons(l1, [l2]);
    assert [l1] + [l2] == [l1, l2];
  }

  lemma TerminatedCons(line: string, lines: seq<string>, e: string)
    ensures Terminated([line] + lines, e) == line + e + Terminated(lines, e)
  {
    assert ([line] + lines)[0] == line && ([line] + lines)[1..] == lines;
  }
}
