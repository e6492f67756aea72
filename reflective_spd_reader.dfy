/** `ReflectiveSpdReader<Type>` and the `ReadReflectiveSpdAs...From` entry
    points: reflectance data, whose spectral power may not exceed one. */
module Reflective {
  import opened SpdErrors
  import opened Floats
  import opened SpdReader
  import opened SpdReaderLemmas
  import opened Validating

  /** `HandleComment`: every comment is accepted. */
  function AcceptComment(text: string): (r: Outcome)
    ensures r.Pass?
  {
    Pass
  }

  /** `HandleSample`: the stored (narrowed) power may be at most one; one
      itself is accepted. */
  function CheckReflectance(wavelength: real, power: real): (r: Outcome)
    ensures r.Pass? <==> power <= 1.0
    ensures r.Fail? ==> r.error == PowerGreaterThanOne
  {
    if power > 1.0 then Fail(PowerGreaterThanOne) else Pass
  }

  const ReflectivePolicy := Policy(AcceptComment, CheckReflectance)

  /** `ReadReflectiveSpdAs{LongDoubles,Doubles,Floats}From`, the precision
      given as a parameter: a fresh reader reads the input; its error is
      returned as it is, and otherwise the reader's map is moved out. */
  method ReadReflectiveSpdFrom(p: Precision, input: Stream) returns (r: Result<map<real, real>>)
    ensures r == ReadSpd(p, ReflectivePolicy, input)
  {
    var reader := new ValidatingSpdReader(p, ReflectivePolicy);
    var outcome := reader.ReadFrom(input);
    if outcome.Fail? {
      return Failure(outcome.error);
    }
    var samples := reader.Reset();
    return Success(samples);
  }

  /** Every power in a successful result lies between zero and one. */
  lemma ReflectanceInRange(p: Precision, bytes: string)
    ensures ReadSpd(p, ReflectivePolicy, Good(bytes)).Success? ==>
      var m := ReadSpd(p, ReflectivePolicy, Good(bytes)).value;
      forall k :: k in m ==> 0.0 <= m[k] <= 1.0
  {
    ReadSpdResult(p, ReflectivePolicy, bytes);
    if ReadSpd(p, ReflectivePolicy, Good(bytes)).Success? {
      var m := ReadSpd(p, ReflectivePolicy, Good(bytes)).value;
      var samples := SamplesOf(Scan(bytes).events);
      forall k | k in m
        ensures 0.0 <= m[k] <= 1.0
      {
        var i :| 0 <= i < |samples| && Checked(p, samples[i]) == Success((k, m[k]));
        assert Stored(p, ReflectivePolicy, m, samples[i]);
      }
    }
  }

  /** A reflective read succeeds exactly when the document has no error and
      every sample passes the checks, narrows to a power of at most one, and
      has a narrowed wavelength of its own. */
  lemma ReflectiveAccepts(p: Precision, bytes: string)
    ensures var scanned := Scan(bytes);
      var samples := SamplesOf(scanned.events);
      ReadSpd(p, ReflectivePolicy, Good(bytes)).Success? <==>
        && scanned.trailing.None?
        && (forall i :: 0 <= i < |samples| ==> Checked(p, samples[i]).Success? && Checked(p, samples[i]).value.1 <= 1.0)
        && FreshKeys(p, map[], samples)
  {
    ReadSpdAccepts(p, ReflectivePolicy, bytes);
  }
}
