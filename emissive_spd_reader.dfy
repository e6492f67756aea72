/** `EmisiveSpdReader<Type>` and the `ReadEmisiveSpdAs...From` entry
    points: emission data, where every valid sample is accepted. */
module Emissive {
  import opened SpdErrors
  import opened Floats
  import opened SpdReader
  import opened SpdReaderLemmas
  import opened Validating

  /** `HandleComment`: every comment is accepted. */
  function AcceptComment(text: string): (r: Outcome)
    ensures r.Pass?
  {
    Pass
  }

  /** `HandleSample`: every stored entry is accepted. */
  function AcceptSample(wavelength: real, power: real): (r: Outcome)
    ensures r.Pass?
  {
    Pass
  }

  const EmissivePolicy := Policy(AcceptComment, AcceptSample)

  /** `ReadEmisiveSpdAs{LongDoubles,Doubles,Floats}From`, the precision
      given as a parameter: a fresh reader reads the input; its error is
      returned as it is, and otherwise the reader's map is moved out. */
  method ReadEmissiveSpdFrom(p: Precision, input: Stream) returns (r: Result<map<real, real>>)
    ensures r == ReadSpd(p, EmissivePolicy, input)
  {
    var reader := new ValidatingSpdReader(p, EmissivePolicy);
    var outcome := reader.ReadFrom(input);
    if outcome.Fail? {
      return Failure(outcome.error);
    }
    var samples := reader.Reset();
    return Success(samples);
  }

  /** An emissive read succeeds exactly when the base reader and the checks
      accept the document: no document error, every sample valid, no two
      samples with the same narrowed wavelength. The result is then the
      validator's map: one entry per sample, its narrowed wavelength and
      power. */
  lemma EmissiveAccepts(p: Precision, bytes: string)
    ensures var scanned := Scan(bytes);
      var samples := SamplesOf(scanned.events);
      ReadSpd(p, EmissivePolicy, Good(bytes)).Success? <==>
        && scanned.trailing.None?
        && (forall i :: 0 <= i < |samples| ==> Checked(p, samples[i]).Success?)
        && FreshKeys(p, map[], samples)
    ensures var samples := SamplesOf(Scan(bytes).events);
      ReadSpd(p, EmissivePolicy, Good(bytes)).Success? ==>
        var m := ReadSpd(p, EmissivePolicy, Good(bytes)).value;
        && |m| == |samples|
        && (forall i :: 0 <= i < |samples| ==>
              var c := Checked(p, samples[i]); c.value.0 in m && m[c.value.0] == c.value.1)
        && (forall k :: k in m ==> exists i :: 0 <= i < |samples| && Checked(p, samples[i]) == Success((k, m[k])))
  {
    ReadSpdAccepts(p, EmissivePolicy, bytes);
    ReadSpdResult(p, EmissivePolicy, bytes);
  }
}
