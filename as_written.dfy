/** Four defects where `libspd/spd_reader.cc` does not do what its tests
    expect, each modelled as written next to a concrete input that shows the
    difference. Everything else in these models is as in `SpdReader`, so each
    shows one defect on its own; the rest of the project uses the corrected
    definitions (`FirstLine`, `NextToken`, `ReadLineEvents`, `Dispatch`). */
module AsWritten {
  import opened SpdErrors
  import opened CharConv
  import opened SpdReader
  import opened SpdReaderLemmas

  // ---------------------------------------------------------------------
  // ReadFirstLine
  // ---------------------------------------------------------------------

  /** The index of the first CR at or after `from` (or `|s|`). */
  function CrIndex(s: string, from: nat): (r: nat)
    requires from <= |s|
    ensures from <= r <= |s|
    ensures r < |s| ==> s[r] == '\r'
    ensures forall i :: from <= i < r ==> s[i] != '\r'
    decreases |s| - from
  {
    if from == |s| || s[from] == '\r' then from else CrIndex(s, from + 1)
  }

  /** `ReadFirstLine` as written: only a CR ends the first line (an LF is
      kept in the text), and a CR followed by an LF appends the CR twice and
      leaves the LF unread. */
  function FirstLineAsWritten(input: string): (r: FirstLineRead)
    ensures r.next <= |input|
    ensures r.ending == [] ==> r.next == |input|
    ensures r.ending != [] ==> r.next == |r.text| + 1 && input[|r.text|] == '\r'
    ensures r.ending == [] || r.ending == "\r" || r.ending == "\r\r"
    ensures r.ending == "\r\r" <==> (r.next < |input| && input[r.next] == '\n')
    ensures forall i :: 0 <= i < |r.text| ==> r.text[i] != '\r'
    ensures |r.text| <= |input| && r.text == input[..|r.text|]
    ensures r.ending == [] ==> r.text == input
  {
    var b := CrIndex(input, 0);
    if b == |input| then FirstLineRead(input, [], |input|)
    else if b + 1 < |input| && input[b + 1] == '\n' then FirstLineRead(input[..b], "\r\r", b + 1)
    else FirstLineRead(input[..b], "\r", b + 1)
  }

  /** The base reader's document with that first line. */
  function ScanAsWritten(input: string): Scanned {
    var first := FirstLineAsWritten(input);
    var rest := LinesFrom(input, first.next, first.ending);
    Pairing(TokensOf([first.text] + rest.lines), None, rest.mismatched)
  }

  /** The tokens of the two lines `1 2` and `3 4`. */
  lemma TwoPairLines()
    ensures TokensOf(["1 2"]) == ["1", "2"]
    ensures TokensOf(["1 2", "3 4"]) == ["1", "2", "3", "4"]
  {
    TokensOfPairLines("1", "2", "3", "4");
    assert "1" + " " + "2" == "1 2" && "3" + " " + "4" == "3 4";
  }

  lemma OneDigitNumbers()
    ensures ParseNumber("1") == Some(1.0) && ParseNumber("2") == Some(2.0)
    ensures ParseNumber("3") == Some(3.0) && ParseNumber("4") == Some(4.0)
  {
  }

  /** As written, a CRLF document is rejected at its first line break: the
      canonical ending becomes CR CR and the LF left unread mismatches it. */
  lemma CrlfRejectedAsWritten()
    ensures ScanAsWritten("1 2\r\n3 4\r\n") == Scanned([Sample(1.0, 2.0)], Some(MismatchedLineEndings))
  {
    var input := "1 2\r\n3 4\r\n";
    assert CrIndex(input, 0) == 3;
    assert FirstLineAsWritten(input) == FirstLineRead("1 2", "\r\r", 4);
    assert BreakIndex(input, 4) == 4;
    assert MatchEnding(input, 4, "\r\r").None?;
    assert LinesFrom(input, 4, "\r\r") == Document([], true);
    TwoPairLines();
    OneDigitNumbers();
    assert ["1", "2"][1..] == ["2"];
  }

  lemma CrlfDocument()
    ensures Terminated(["1 2", "3 4"], "\r\n") == "1 2\r\n3 4\r\n"
  {
    var lines := ["1 2", "3 4"];
    assert lines[1..] == ["3 4"] && lines[1..][1..] == [];
    assert Terminated(lines[1..], "\r\n") == "3 4\r\n";
  }

  lemma FourNumbers()
    ensures Pairing(["1", "2", "3", "4"], None, false) == Scanned([Sample(1.0, 2.0), Sample(3.0, 4.0)], None)
  {
    OneDigitNumbers();
    var tokens := ["1", "2", "3", "4"];
    assert tokens[1..] == ["2", "3", "4"] && tokens[1..][1..] == ["3", "4"];
    assert ["3", "4"][1..] == ["4"] && ["4"][1..] == [];
  }

  /** With the corrected first line, the same document is read in full. */
  lemma CrlfAccepted()
    ensures Scan("1 2\r\n3 4\r\n") == Scanned([Sample(1.0, 2.0), Sample(3.0, 4.0)], None)
  {
    var lines := ["1 2", "3 4"];
    CrlfDocument();
    assert AllBreakFree(lines);
    LinesOfTerminated(lines, "\r\n");
    TwoPairLines();
    FourNumbers();
  }

  // ---------------------------------------------------------------------
  // ReadNextToken
  // ---------------------------------------------------------------------

  /** `ReadNextToken` as written: the loop that measures the token declares
      its own `token_length`, so the outer one stays 1; the result is the
      text after the token's first byte, and only that byte is consumed. */
  function NextTokenAsWritten(text: string): (r: Option<Cut>)
    ensures r.Some? ==> r.value.rest == [] || (r.value.token == r.value.rest && |r.value.rest| < |text|)
    decreases |text|
  {
    if text == [] then None
    else if !IsGraph(text[0]) then NextTokenAsWritten(text[1..])
    else if text[0] == '#' then Some(Cut(text, []))
    else Some(Cut(text[1..], text[1..]))
  }

  /** On `12 34` the token as written is `2 34`, and it is also what is
      left; the corrected token is `12`, followed by ` 34`. */
  lemma TokenCutShortAsWritten()
    ensures NextTokenAsWritten("12 34") == Some(Cut("2 34", "2 34"))
    ensures NextToken("12 34") == Some(Cut("12", " 34"))
  {
    var text := "12 34";
    assert GraphEnd(text, 1) == 2;
    assert text[..2] == "12" && text[2..] == " 34" && text[1..] == "2 34";
  }

  // ---------------------------------------------------------------------
  // ReadFrom
  // ---------------------------------------------------------------------

  /** `ReadFrom` as written calls the handlers but discards what they
      return: every event is handled and the outcome is decided by the
      document alone. */
  function DispatchAsWritten<S>(h: Handlers<S>, s: S, events: seq<Event>, trailing: Option<Error>): (r: Step<S>)
    ensures r.outcome == if trailing.Some? then Fail(trailing.value) else Pass
    decreases |events|
  {
    if events == [] then Step(s, if trailing.Some? then Fail(trailing.value) else Pass)
    else DispatchAsWritten(h, Handle(h, s, events[0]).state, events[1..], trailing)
  }

  function ReadAsWritten<S>(h: Handlers<S>, s: S, bytes: string): Step<S> {
    var scanned := Scan(bytes);
    DispatchAsWritten(h, s, scanned.events, scanned.trailing)
  }

  /** Handlers that refuse every comment. */
  function RejectComments(): Handlers<int> {
    Handlers((n: int, text: string) => Step(n, Fail(Custom("no comments"))),
             (n: int, w: real, v: real) => Step(n + 1, Pass))
  }

  lemma CommentDocument()
    ensures Scan("#Comment") == Scanned([Comment("Comment")], None)
  {
    var input := "#Comment";
    assert BreakIndex(input, 0) == |input|;
    assert Lines(input) == Document([input], false);
    TokensOfComment(input);
    assert TokensOf([input]) == [input];
  }

  /** As written, a handler that refuses a comment does not stop the
      reader, which reports success; the corrected reader returns the
      handler's error. */
  lemma HandlerErrorDroppedAsWritten()
    ensures ReadAsWritten(RejectComments(), 0, "#Comment").outcome == Pass
    ensures Read(RejectComments(), 0, Good("#Comment")) == Step(0, Fail(Custom("no comments")))
  {
    CommentDocument();
  }

  // ---------------------------------------------------------------------
  // The token loop of ReadFrom
  // ---------------------------------------------------------------------

  /** The inner `for` loop of `ReadFrom` as written runs while there is NO
      token. Each pass of the outer loop therefore takes one token off the
      line and leaves the inner loop at once without handling it; when the
      rest of the line holds only non-graphic bytes the loop body looks into
      an empty `std::optional`, which is undefined behaviour. True when the
      line is used up without reaching that point. */
  function LineAsWritten(view: string): (defined: bool)
    ensures (forall i :: 0 <= i < |view| ==> IsGraph(view[i])) ==> defined
    ensures |view| > 0 && !IsGraph(view[|view| - 1]) && NoHash(view) ==> !defined
    decreases |view|
  {
    if view == [] then true
    else
      match NextToken(view)
      case None => false
      case Some(cut) =>
        NextTokenShape(view);
        RestKeepsEnd(view);
        LineAsWritten(cut.rest)
  }

  predicate NoHash(s: string) {
    forall i :: 0 <= i < |s| ==> s[i] != '#'
  }

  /** Where the next token and the text after it sit in the line. */
  lemma CutPlace(view: string)
    requires NextToken(view).Some?
    ensures var cut := NextToken(view).value;
      var start := |view| - |cut.rest|;
      && cut.rest == view[start..]
      && cut.token == view[start - |cut.token|..start]
      && (cut.token[0] != '#' ==> forall i :: 0 <= i < |cut.token| ==> IsGraph(cut.token[i]))
  {
    NextTokenShape(view);
    var cut := NextToken(view).value;
    var skipped := |view| - |cut.token| - |cut.rest|;
    assert view[skipped..][|cut.token|..] == cut.rest;
    assert view[skipped..][..|cut.token|] == cut.token;
  }

  /** Without `#`, the next token is a plain word and the text after it is
      the tail of the line: non-empty and ending like the line when the line
      ends with a non-graphic byte, and still without `#`. */
  lemma RestKeepsEnd(view: string)
    requires NextToken(view).Some?
    ensures var rest := NextToken(view).value.rest;
      NoHash(view) ==>
        && NoHash(rest)
        && (!IsGraph(view[|view| - 1]) ==> |rest| > 0 && rest[|rest| - 1] == view[|view| - 1])
  {
    CutPlace(view);
    var cut := NextToken(view).value;
    var start := |view| - |cut.rest|;
    if NoHash(view) {
      forall i | 0 <= i < |cut.rest| ensures cut.rest[i] != '#' {
        assert cut.rest[i] == view[start + i];
      }
      assert cut.token[0] == view[start - |cut.token|];
      if cut.rest == [] {
        assert view[|view| - 1] == cut.token[|cut.token| - 1];
      } else {
        assert cut.rest[|cut.rest| - 1] == view[|view| - 1];
      }
    }
  }

  /** The base reader's document read with that loop: when it is defined no
      token is ever handled, so there are no events and no pending
      wavelength; only a mismatched break is still reported. */
  function ScanLoopAsWritten(input: string): (r: Option<Scanned>)
    ensures r.Some? ==> r.value.events == [] && (r.value.trailing.None? <==> !Lines(input).mismatched)
  {
    var doc := Lines(input);
    if forall i :: 0 <= i < |doc.lines| ==> LineAsWritten(doc.lines[i]) then
      Some(Scanned([], if doc.mismatched then Some(MismatchedLineEndings) else None))
    else None
  }

  lemma PairLineDocument()
    ensures Lines("1 2") == Document(["1 2"], false)
    ensures Scan("1 2") == Scanned([Sample(1.0, 2.0)], None)
  {
    var input := "1 2";
    assert BreakIndex(input, 0) == |input|;
    assert Lines(input) == Document([input], false);
    TwoPairLines();
    OneDigitNumbers();
    assert ["1", "2"][1..] == ["2"];
  }

  /** On the one-line document `1 2` the loop as written is defined, drops
      both numbers and reports success with no sample; the corrected loop
      reads the sample 1 ↦ 2. A line that ends in a space reaches the
      undefined dereference. */
  lemma TokensDroppedAsWritten()
    ensures ScanLoopAsWritten("1 2") == Some(Scanned([], None))
    ensures Scan("1 2") == Scanned([Sample(1.0, 2.0)], None)
    ensures !LineAsWritten("1 ")
  {
    PairLineDocument();
    var line := "1 2";
    assert GraphEnd(line, 1) == 1 && line[..1] == "1" && line[1..] == " 2";
    assert NextToken(line) == Some(Cut("1", " 2"));
    assert " 2"[1..] == "2" && GraphEnd("2", 1) == 1 && "2"[..1] == "2" && "2"[1..] == "";
    assert NextToken(" 2") == Some(Cut("2", ""));
    assert LineAsWritten(line);
    var spaced := "1 ";
    assert GraphEnd(spaced, 1) == 1 && spaced[..1] == "1" && spaced[1..] == " ";
    assert NextToken(spaced) == Some(Cut("1", " "));
    assert " "[1..] == "";
    assert NextToken(" ").None?;
  }
}
