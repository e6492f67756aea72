/** The documents of the readers' tests, written out: a well-formed
    emission document (a comment, then the samples 1 ↦ 2, 5 ↦ 6, 3 ↦ 4, each
    on its own line) and a well-formed reflectance document (1 ↦ 1,
    5 ↦ 0.5, 3 ↦ 0). */
module Fixtures {
  import opened SpdErrors
  import opened CharConv
  import opened Floats
  import opened SpdReader
  import opened SpdReaderLemmas
  import opened Validating
  import opened Emissive
  import opened Reflective

  const EmissionLines: seq<string> := ["#Comment", "1 2", "5 6", "3 4"]
  const EmissionDocument: string := "#Comment\n1 2\n5 6\n3 4\n"

  lemma EmissionDocumentLines()
    ensures Terminated(EmissionLines, "\n") == EmissionDocument
  {
    TerminatedCons("3 4", [], "\n");
    TerminatedCons("5 6", ["3 4"], "\n");
    TerminatedCons("1 2", ["5 6", "3 4"], "\n");
    TerminatedCons("#Comment", ["1 2", "5 6", "3 4"], "\n");
    assert ["#Comment"] + ["1 2", "5 6", "3 4"] == EmissionLines;
  }

  lemma EmissionTokens()
    ensures TokensOf(EmissionLines) == ["#Comment", "1", "2", "5", "6", "3", "4"]
  {
    TokensOfCommentAndPairs("#Comment", "1", "2", "5", "6", "3", "4");
    assert "1" + " " + "2" == "1 2" && "5" + " " + "6" == "5 6" && "3" + " " + "4" == "3 4";
  }

  /** A single digit is the number it stands for. */
  lemma DigitNumber(d: char)
    requires IsDigit(d)
    ensures ParseNumber([d]) == Some(DigitValue(d) as real)
  {
    DecimalOfDigit(d);
    DigitsParse([d]);
  }

  lemma PairingComment(t: string, rest: seq<string>)
    requires IsComment(t)
    ensures Pairing([t] + rest, None, false) == Then([Comment(t[1..])], Pairing(rest, None, false))
  {
    assert ([t] + rest)[0] == t && ([t] + rest)[1..] == rest;
  }

  lemma PairingPair(a: string, b: string, rest: seq<string>)
    requires !IsComment(a) && !IsComment(b) && ParseNumber(a).Some? && ParseNumber(b).Some?
    ensures Pairing([a, b] + rest, None, false) ==
      Then([Sample(ParseNumber(a).value, ParseNumber(b).value)], Pairing(rest, None, false))
  {
    assert ([a, b] + rest)[0] == a && ([a, b] + rest)[1..] == [b] + rest;
    assert ([b] + rest)[0] == b && ([b] + rest)[1..] == rest;
  }

  lemma PairingTwoPairs(a: string, b: string, c: string, d: string)
    requires !IsComment(a) && !IsComment(b) && !IsComment(c) && !IsComment(d)
    requires ParseNumber(a).Some? && ParseNumber(b).Some? && ParseNumber(c).Some? && ParseNumber(d).Some?
    ensures Pairing([a, b, c, d], None, false) ==
      Scanned([Sample(ParseNumber(a).value, ParseNumber(b).value), Sample(ParseNumber(c).value, ParseNumber(d).value)], None)
  {
    PairingPair(c, d, []);
    PairingPair(a, b, [c, d]);
    assert [c, d] + [] == [c, d];
    assert [a, b] + [c, d] == [a, b, c, d];
  }

  /** A comment token, then three pairs of number tokens. */
  lemma PairingCommentThenThreePairs(c: string, a1: string, b1: string, a2: string, b2: string, a3: string, b3: string)
    requires IsComment(c)
    requires !IsComment(a1) && !IsComment(b1) && ParseNumber(a1).Some? && ParseNumber(b1).Some?
    requires !IsComment(a2) && !IsComment(b2) && !IsComment(a3) && !IsComment(b3)
    requires ParseNumber(a2).Some? && ParseNumber(b2).Some? && ParseNumber(a3).Some? && ParseNumber(b3).Some?
    ensures Pairing([c, a1, b1, a2, b2, a3, b3], None, false) ==
      Scanned([Comment(c[1..]),
               Sample(ParseNumber(a1).value, ParseNumber(b1).value),
               Sample(ParseNumber(a2).value, ParseNumber(b2).value),
               Sample(ParseNumber(a3).value, ParseNumber(b3).value)], None)
  {
    PairingTwoPairs(a2, b2, a3, b3);
    PairingPair(a1, b1, [a2, b2, a3, b3]);
    PairingComment(c, [a1, b1, a2, b2, a3, b3]);
    assert [a1, b1] + [a2, b2, a3, b3] == [a1, b1, a2, b2, a3, b3];
    assert [c] + [a1, b1, a2, b2, a3, b3] == [c, a1, b1, a2, b2, a3, b3];
  }

  lemma EmissionNumbers()
    ensures ParseNumber("1") == Some(1.0) && ParseNumber("2") == Some(2.0)
    ensures ParseNumber("3") == Some(3.0) && ParseNumber("4") == Some(4.0)
    ensures ParseNumber("5") == Some(5.0) && ParseNumber("6") == Some(6.0)
  {
    DigitNumber('1');
    DigitNumber('2');
    DigitNumber('3');
    DigitNumber('4');
    DigitNumber('5');
    DigitNumber('6');
  }

  lemma EmissionPairing()
    ensures Pairing(["#Comment", "1", "2", "5", "6", "3", "4"], None, false) ==
      Scanned([Comment("Comment"), Sample(1.0, 2.0), Sample(5.0, 6.0), Sample(3.0, 4.0)], None)
  {
    EmissionNumbers();
    PairingCommentThenThreePairs("#Comment", "1", "2", "5", "6", "3", "4");
  }

  /** The events of the emission document, in document order. */
  lemma EmissionEvents()
    ensures Scan(EmissionDocument) ==
      Scanned([Comment("Comment"), Sample(1.0, 2.0), Sample(5.0, 6.0), Sample(3.0, 4.0)], None)
  {
    EmissionDocumentLines();
    assert AllBreakFree(EmissionLines);
    LinesOfTerminated(EmissionLines, "\n");
    EmissionTokens();
    EmissionPairing();
  }

  lemma DispatchComment(p: Precision, policy: Policy, m: map<real, real>, text: string, rest: seq<Event>)
    requires policy.comment(text) == Pass
    ensures Dispatch(Validation(p, policy), m, [Comment(text)] + rest, None) == Dispatch(Validation(p, policy), m, rest, None)
  {
    assert ([Comment(text)] + rest)[0] == Comment(text) && ([Comment(text)] + rest)[1..] == rest;
  }

  lemma DispatchSample(p: Precision, policy: Policy, m: map<real, real>, w: real, v: real, rest: seq<Event>)
    requires Guard(p, w, v) == Success((w, v)) && w !in m && policy.sample(w, v) == Pass
    ensures Dispatch(Validation(p, policy), m, [Sample(w, v)] + rest, None) == Dispatch(Validation(p, policy), m[w := v], rest, None)
  {
    assert ([Sample(w, v)] + rest)[0] == Sample(w, v) && ([Sample(w, v)] + rest)[1..] == rest;
  }

  /** The well-formed checks pass for small whole numbers (and a power of
      zero or one half) at every precision. */
  lemma SmallSamplesPass(p: Precision, w: real, v: real)
    requires w == w.Floor as real && 1.0 <= w <= 1000000.0
    requires v == 0.0 || v == 0.5 || (v == v.Floor as real && 1.0 <= v <= 1000000.0)
    ensures Guard(p, w, v) == Success((w, v))
  {
    SmallNumbersAreRepresentable(p, w);
    SmallNumbersAreRepresentable(p, v);
  }

  /** A document of one comment and three samples that pass every check,
      with three different wavelengths, is read into the map of its
      samples. */
  lemma ReadCommentAndThreeSamples(p: Precision, policy: Policy, doc: string, text: string,
                                   w1: real, v1: real, w2: real, v2: real, w3: real, v3: real)
    requires Scan(doc) == Scanned([Comment(text), Sample(w1, v1), Sample(w2, v2), Sample(w3, v3)], None)
    requires Guard(p, w1, v1) == Success((w1, v1)) && Guard(p, w2, v2) == Success((w2, v2)) && Guard(p, w3, v3) == Success((w3, v3))
    requires w1 != w2 && w1 != w3 && w2 != w3
    requires policy.comment(text) == Pass
    requires policy.sample(w1, v1) == Pass && policy.sample(w2, v2) == Pass && policy.sample(w3, v3) == Pass
    ensures ReadSpd(p, policy, Good(doc)) == Success(map[w1 := v1, w2 := v2, w3 := v3])
  {
    DispatchSample(p, policy, map[w1 := v1, w2 := v2], w3, v3, []);
    DispatchSample(p, policy, map[w1 := v1], w2, v2, [Sample(w3, v3)]);
    DispatchSample(p, policy, map[], w1, v1, [Sample(w2, v2), Sample(w3, v3)]);
    DispatchComment(p, policy, map[], text, [Sample(w1, v1), Sample(w2, v2), Sample(w3, v3)]);
    assert [Sample(w3, v3)] + [] == [Sample(w3, v3)];
    assert [Sample(w2, v2)] + [Sample(w3, v3)] == [Sample(w2, v2), Sample(w3, v3)];
    assert [Sample(w1, v1)] + [Sample(w2, v2), Sample(w3, v3)] == [Sample(w1, v1), Sample(w2, v2), Sample(w3, v3)];
    assert [Comment(text)] + [Sample(w1, v1), Sample(w2, v2), Sample(w3, v3)] ==
      [Comment(text), Sample(w1, v1), Sample(w2, v2), Sample(w3, v3)];
  }

  const EmissionMap: map<real, real> := map[1.0 := 2.0, 5.0 := 6.0, 3.0 := 4.0]

  /** The emission document is read at every precision into the map
      1 ↦ 2, 3 ↦ 4, 5 ↦ 6. */
  lemma EmissiveWellFormed(p: Precision)
    ensures ReadSpd(p, EmissivePolicy, Good(EmissionDocument)) == Success(EmissionMap)
  {
    EmissionEvents();
    SmallSamplesPass(p, 1.0, 2.0);
    SmallSamplesPass(p, 5.0, 6.0);
    SmallSamplesPass(p, 3.0, 4.0);
    ReadCommentAndThreeSamples(p, EmissivePolicy, EmissionDocument, "Comment", 1.0, 2.0, 5.0, 6.0, 3.0, 4.0);
  }

  lemma EntriesOfOne(a: real, x: real)
    ensures Entries(map[a := x]) == [(a, x)]
  {
    var m := map[a := x];
    EntriesFrom(m, a);
    assert m - {a} == map[];
  }

  lemma EntriesOfTwo(b: real, y: real, c: real, z: real)
    requires b < c
    ensures Entries(map[c := z, b := y]) == [(b, y), (c, z)]
  {
    var m := map[c := z, b := y];
    EntriesFrom(m, b);
    assert m - {b} == map[c := z];
    EntriesOfOne(c, z);
  }

  lemma EntriesOfThree(a: real, x: real, b: real, y: real, c: real, z: real)
    requires a < b < c
    ensures Entries(map[a := x, c := z, b := y]) == [(a, x), (b, y), (c, z)]
  {
    var m := map[a := x, c := z, b := y];
    assert forall j :: j in m ==> a <= j;
    EntriesFrom(m, a);
    WithoutLeast(a, x, b, y, c, z);
    EntriesOfTwo(b, y, c, z);
    assert [(a, x)] + [(b, y), (c, z)] == [(a, x), (b, y), (c, z)];
  }

  lemma WithoutLeast(a: real, x: real, b: real, y: real, c: real, z: real)
    requires a < b < c
    ensures map[a := x, c := z, b := y] - {a} == map[c := z, b := y]
  {
  }

  /** The map lists its entries by ascending wavelength, not in document
      order. */
  lemma EmissionMapInOrder()
    ensures Entries(EmissionMap) == [(1.0, 2.0), (3.0, 4.0), (5.0, 6.0)]
  {
    EntriesOfThree(1.0, 2.0, 3.0, 4.0, 5.0, 6.0);
  }

  /** A document whose first sample passes the checks but is refused by
      the policy fails with the policy's error. */
  lemma ReadCommentThenRefusedSample(p: Precision, policy: Policy, doc: string, text: string,
                                     w: real, v: real, rest: seq<Event>)
    requires Scan(doc) == Scanned([Comment(text), Sample(w, v)] + rest, None)
    requires Guard(p, w, v) == Success((w, v))
    requires policy.comment(text) == Pass && policy.sample(w, v).Fail?
    ensures ReadSpd(p, policy, Good(doc)) == Failure(policy.sample(w, v).error)
  {
    var h := Validation(p, policy);
    var tail := [Sample(w, v)] + rest;
    assert tail[0] == Sample(w, v);
    assert Dispatch(h, map[], tail, None) == Step(map[w := v], policy.sample(w, v));
    DispatchComment(p, policy, map[], text, tail);
    assert [Comment(text)] + tail == [Comment(text), Sample(w, v)] + rest;
  }

  /** A reflective read of the emission document fails at every precision:
      its first sample has a power of two. */
  lemma ReflectiveRejectsEmission(p: Precision)
    ensures ReadSpd(p, ReflectivePolicy, Good(EmissionDocument)) == Failure(PowerGreaterThanOne)
  {
    EmissionEvents();
    SmallSamplesPass(p, 1.0, 2.0);
    var rest := [Sample(5.0, 6.0), Sample(3.0, 4.0)];
    assert [Comment("Comment"), Sample(1.0, 2.0), Sample(5.0, 6.0), Sample(3.0, 4.0)] ==
      [Comment("Comment"), Sample(1.0, 2.0)] + rest;
    ReadCommentThenRefusedSample(p, ReflectivePolicy, EmissionDocument, "Comment", 1.0, 2.0, rest);
  }

  const ReflectanceLines: seq<string> := ["#Comment", "1 1", "5 0.5", "3 0"]
  const ReflectanceDocument: string := "#Comment\n1 1\n5 0.5\n3 0\n"

  lemma ReflectanceDocumentLines()
    ensures Terminated(ReflectanceLines, "\n") == ReflectanceDocument
  {
    TerminatedCons("3 0", [], "\n");
    TerminatedCons("5 0.5", ["3 0"], "\n");
    TerminatedCons("1 1", ["5 0.5", "3 0"], "\n");
    TerminatedCons("#Comment", ["1 1", "5 0.5", "3 0"], "\n");
    assert ["#Comment"] + ["1 1", "5 0.5", "3 0"] == ReflectanceLines;
  }

  lemma ReflectanceTokens()
    ensures TokensOf(ReflectanceLines) == ["#Comment", "1", "1", "5", "0.5", "3", "0"]
  {
    TokensOfCommentAndPairs("#Comment", "1", "1", "5", "0.5", "3", "0");
    assert "1" + " " + "1" == "1 1" && "5" + " " + "0.5" == "5 0.5" && "3" + " " + "0" == "3 0";
  }

  /** `0.5` read one character at a time. */
  lemma HalfNumber()
    ensures ParseNumber("0.5") == Some(0.5)
  {
    var s := "0.5";
    var whole := Scanner(Whole, false, 0, 1, 0, false, 0);
    var point := Scanner(Fraction, false, 0, 1, 0, false, 0);
    var half := Scanner(Fraction, false, 5, 2, 1, false, 0);
    assert Advance(Initial, s[0]) == Some(whole);
    assert Advance(whole, s[1]) == Some(point);
    assert Advance(point, s[2]) == Some(half);
    assert Run(s, 3, half) == half;
    assert Run(s, 0, Initial) == half;
    assert Pow10(1) == 10 && Pow10(0) == 1;
    assert Value(half) == Some(Scale(5.0 / 10.0, 0));
  }

  /** `0` read as one whole digit. */
  lemma ZeroNumber()
    ensures ParseNumber("0") == Some(0.0)
  {
    var st := Scanner(Whole, false, 0, 1, 0, false, 0);
    assert Advance(Initial, '0') == Some(st);
    assert Run("0", 0, Initial) == Run("0", 1, st) == st;
    WholeValue(0, 1);
  }

  lemma ReflectanceDigits()
    ensures ParseNumber("0") == Some(0.0) && ParseNumber("1") == Some(1.0)
    ensures ParseNumber("3") == Some(3.0) && ParseNumber("5") == Some(5.0)
  {
    ZeroNumber();
    DigitNumber('1');
    DigitNumber('3');
    DigitNumber('5');
  }

  lemma ReflectancePairing()
    ensures Pairing(["#Comment", "1", "1", "5", "0.5", "3", "0"], None, false) ==
      Scanned([Comment("Comment"), Sample(1.0, 1.0), Sample(5.0, 0.5), Sample(3.0, 0.0)], None)
  {
    ReflectanceDigits();
    HalfNumber();
    PairingCommentThenThreePairs("#Comment", "1", "1", "5", "0.5", "3", "0");
  }

  lemma ReflectanceEvents()
    ensures Scan(ReflectanceDocument) ==
      Scanned([Comment("Comment"), Sample(1.0, 1.0), Sample(5.0, 0.5), Sample(3.0, 0.0)], None)
  {
    ReflectanceDocumentLines();
    assert AllBreakFree(ReflectanceLines);
    LinesOfTerminated(ReflectanceLines, "\n");
    ReflectanceTokens();
    ReflectancePairing();
  }

  lemma ReflectanceSamplesPass(p: Precision)
    ensures Guard(p, 1.0, 1.0) == Success((1.0, 1.0))
    ensures Guard(p, 5.0, 0.5) == Success((5.0, 0.5))
    ensures Guard(p, 3.0, 0.0) == Success((3.0, 0.0))
    ensures ReflectivePolicy.comment("Comment") == Pass
    ensures ReflectivePolicy.sample(1.0, 1.0) == Pass
    ensures ReflectivePolicy.sample(5.0, 0.5) == Pass
    ensures ReflectivePolicy.sample(3.0, 0.0) == Pass
  {
    SmallSamplesPass(p, 1.0, 1.0);
    SmallSamplesPass(p, 5.0, 0.5);
    SmallSamplesPass(p, 3.0, 0.0);
  }

  /** The reflectance document is read at every precision into the map
      1 ↦ 1, 3 ↦ 0, 5 ↦ 0.5: a power of exactly one is accepted. */
  lemma ReflectiveWellFormed(p: Precision)
    ensures ReadSpd(p, ReflectivePolicy, Good(ReflectanceDocument)) == Success(map[1.0 := 1.0, 5.0 := 0.5, 3.0 := 0.0])
  {
    ReflectanceEvents();
    ReflectanceSamplesPass(p);
    ReadCommentAndThreeSamples(p, ReflectivePolicy, ReflectanceDocument, "Comment", 1.0, 1.0, 5.0, 0.5, 3.0, 0.0);
  }
}
