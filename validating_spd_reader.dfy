/** `ValidatingSpdReader<Type>`: the reader that checks every sample,
    narrows it to the precision of `Type` and collects it in a map from
    wavelength to spectral power, before handing the stored entry to the
    policy of the derived reader. */
module Validating {
  import opened SpdErrors
  import opened Floats
  import opened SpdReader
  import opened SpdReaderLemmas

  /** What a derived reader decides: its `HandleComment` and its
      `HandleSample` for a stored entry (wavelength, spectral power). */
  datatype Policy = Policy(comment: string -> Outcome, sample: (real, real) -> Outcome)

  /** The checks of `HandleSample(long double, long double)` before the
      insert, in the order the source makes them: the unnarrowed wavelength
      and power must not be negative, and the narrowed wavelength must be
      neither zero nor infinite and the narrowed power not infinite. The
      result is the narrowed entry. */
  function Guard(p: Precision, wavelength: real, power: real): (r: Result<(real, real)>)
    ensures r.Success? <==>
      && wavelength >= 0.0 && power >= 0.0
      && Narrow(p, wavelength).Finite? && Narrow(p, wavelength).value != 0.0
      && Narrow(p, power).Finite?
    ensures r.Success? ==>
      && r.value.0 > 0.0 && r.value.1 >= 0.0
      && Representable(p, r.value.0) && Representable(p, r.value.1)
      && r.value == (Narrow(p, wavelength).value, Narrow(p, power).value)
  {
    if wavelength < 0.0 then Failure(NegativeWavelength)
    else if power < 0.0 then Failure(NegativeSpectralPower)
    else
      var w := Narrow(p, wavelength);
      if w == Finite(0.0) then Failure(WavelengthZero)
      else if w.NonFinite? then Failure(NonFiniteWavelength)
      else
        var v := Narrow(p, power);
        if v.NonFinite? then Failure(NonFiniteSpectralPower)
        else Success((w.value, v.value))
  }

  /** The first failing check decides the error. */
  lemma GuardOrder(p: Precision, wavelength: real, power: real)
    ensures var r := Guard(p, wavelength, power);
      var w, v := Narrow(p, wavelength), Narrow(p, power);
      && (r == Failure(NegativeWavelength) <==> wavelength < 0.0)
      && (r == Failure(NegativeSpectralPower) <==> wavelength >= 0.0 && power < 0.0)
      && (r == Failure(WavelengthZero) <==> wavelength >= 0.0 && power >= 0.0 && w == Finite(0.0))
      && (r == Failure(NonFiniteWavelength) <==> wavelength >= 0.0 && power >= 0.0 && w.NonFinite?)
      && (r == Failure(NonFiniteSpectralPower) <==>
            wavelength >= 0.0 && power >= 0.0 && w.Finite? && w.value != 0.0 && v.NonFinite?)
  {
  }

  /** The class invariant: every stored wavelength is positive and every
      stored power non-negative, both values of the target precision (so
      finite). */
  ghost predicate ValidSamples(p: Precision, samples: map<real, real>) {
    forall k :: k in samples ==> k > 0.0 && samples[k] >= 0.0 && Representable(p, k) && Representable(p, samples[k])
  }

  /** `HandleSample(long double, long double)` on the map `samples`: a
      failed check or a wavelength already present fails and leaves the map
      as it was (the earlier value is kept); otherwise the narrowed entry is
      inserted and the policy's verdict on it is the result, the entry
      staying in the map even if the policy refuses it. */
  function SampleStep(p: Precision, policy: Policy, samples: map<real, real>, wavelength: real, power: real): (r: Step<map<real, real>>)
    ensures ValidSamples(p, samples) ==> ValidSamples(p, r.state)
    ensures Guard(p, wavelength, power).Failure? ==> r == Step(samples, Fail(Guard(p, wavelength, power).error))
    ensures Guard(p, wavelength, power).Success? ==>
      var (k, v) := Guard(p, wavelength, power).value;
      if k in samples then r == Step(samples, Fail(DuplicateWavelength))
      else r.state == samples[k := v] && r.outcome == policy.sample(k, v)
  {
    match Guard(p, wavelength, power)
    case Failure(e) => Step(samples, Fail(e))
    case Success((k, v)) =>
      if k in samples then Step(samples, Fail(DuplicateWavelength))
      else Step(samples[k := v], policy.sample(k, v))
  }

  /** The handlers of a validating reader with this policy: comments go
      straight to the policy; samples go through `SampleStep`. */
  function Validation(p: Precision, policy: Policy): Handlers<map<real, real>> {
    Handlers((samples: map<real, real>, text: string) => Step(samples, policy.comment(text)),
             (samples: map<real, real>, wavelength: real, power: real) => SampleStep(p, policy, samples, wavelength, power))
  }

  /** The validating handlers, event by event. */
  lemma HandleValidation(p: Precision, policy: Policy, m: map<real, real>, e: Event)
    ensures Handle(Validation(p, policy), m, e) ==
      match e
      case Comment(text) => Step(m, policy.comment(text))
      case Sample(w, v) => SampleStep(p, policy, m, w, v)
  {
  }

  /** An entry point: a fresh reader reads the input; its error, or the
      collected map. */
  function ReadSpd(p: Precision, policy: Policy, input: Stream): Result<map<real, real>> {
    var r := Read(Validation(p, policy), map[], input);
    if r.outcome.Fail? then Failure(r.outcome.error) else Success(r.state)
  }

  // ---------------------------------------------------------------------
  // The reader object
  // ---------------------------------------------------------------------

  class ValidatingSpdReader {
    const precision: Precision
    const policy: Policy
    var samples: map<real, real>

    ghost predicate Valid()
      reads this
    {
      ValidSamples(precision, samples)
    }

    constructor (precision: Precision, policy: Policy)
      ensures this.precision == precision && this.policy == policy
      ensures samples == map[] && Valid()
    {
      this.precision := precision;
      this.policy := policy;
      samples := map[];
    }

    /** Moves the collected map out and leaves the reader empty. */
    method Reset() returns (r: map<real, real>)
      modifies this
      ensures r == old(samples) && samples == map[]
      ensures Valid()
    {
      r := samples;
      samples := map[];
    }

    /** The checks, then `try_emplace`, then the policy. */
    method HandleSample(wavelength: real, power: real) returns (r: Outcome)
      requires Valid()
      modifies this
      ensures Step(samples, r) == SampleStep(precision, policy, old(samples), wavelength, power)
      ensures Valid()
    {
      var checked := Guard(precision, wavelength, power);
      if checked.Failure? {
        return Fail(checked.error);
      }
      var (k, v) := checked.value;
      if k in samples {
        return Fail(DuplicateWavelength);
      }
      samples := samples[k := v];
      r := policy.sample(k, v);
    }

    /** One event handed to the reader: a comment goes to the policy, a
        sample to `HandleSample`. */
    method HandleEvent(e: Event) returns (r: Outcome)
      requires Valid()
      modifies this
      ensures Step(samples, r) == Handle(Validation(precision, policy), old(samples), e)
      ensures Valid()
    {
      HandleValidation(precision, policy, samples, e);
      match e {
        case Comment(text) =>
          r := policy.comment(text);
        case Sample(wavelength, power) =>
          r := HandleSample(wavelength, power);
      }
    }

    /** `SpdReader::ReadFrom` on this reader: the document's events are
        handed over in order, and the first error ends the reading. */
    method ReadFrom(input: Stream) returns (r: Outcome)
      requires Valid()
      modifies this
      ensures Step(samples, r) == Read(Validation(precision, policy), old(samples), input)
      ensures Valid()
    {
      if input.Bad? {
        return Fail(BadStream);
      }
      var scanned := ReadEvents(input.bytes);
      var events := scanned.events;
      ghost var h := Validation(precision, policy);
      var i := 0;
      while i < |events|
        invariant 0 <= i <= |events|
        invariant Valid()
        invariant Dispatch(h, old(samples), events, scanned.trailing) == Dispatch(h, samples, events[i..], scanned.trailing)
      {
        DispatchAt(h, samples, events, i, scanned.trailing);
        r := HandleEvent(events[i]);
        if r.Fail? {
          return;
        }
        i := i + 1;
      }
      DispatchAt(h, samples, events, i, scanned.trailing);
      r := if scanned.trailing.Some? then Fail(scanned.trailing.value) else Pass;
    }
  }

  /** A fresh reader holds nothing; after a reading, `Reset` moves out what
      the reading collected (even when the reading failed part-way), and a
      second `Reset` finds the reader empty again. */
  method ResetAroundRead(p: Precision, policy: Policy, input: Stream)
    returns (before: map<real, real>, after: map<real, real>, again: map<real, real>)
    ensures before == map[] && again == map[]
    ensures after == Read(Validation(p, policy), map[], input).state
  {
    var reader := new ValidatingSpdReader(p, policy);
    before := reader.Reset();
    var _ := reader.ReadFrom(input);
    after := reader.Reset();
    again := reader.Reset();
  }

  // ---------------------------------------------------------------------
  // What a whole reading leaves
  // ---------------------------------------------------------------------

  /** A sample as the reader checks and narrows it. */
  function Checked(p: Precision, sample: (real, real)): Result<(real, real)> {
    Guard(p, sample.0, sample.1)
  }

  /** The sample passed the checks, its narrowed entry is in `m`, and the
      policy accepted that entry. */
  ghost predicate Stored(p: Precision, policy: Policy, m: map<real, real>, sample: (real, real)) {
    var c := Checked(p, sample);
    c.Success? && c.value.0 in m && m[c.value.0] == c.value.1 && policy.sample(c.value.0, c.value.1) == Pass
  }

  /** The narrowed wavelengths of the samples are all new to `m` and differ
      from one another. */
  ghost predicate FreshKeys(p: Precision, m: map<real, real>, samples: seq<(real, real)>) {
    && (forall i :: 0 <= i < |samples| && Checked(p, samples[i]).Success? ==> Checked(p, samples[i]).value.0 !in m)
    && (forall i, j :: 0 <= i < j < |samples| && Checked(p, samples[i]).Success? && Checked(p, samples[j]).Success? ==>
          Checked(p, samples[i]).value.0 != Checked(p, samples[j]).value.0)
  }

  lemma Unfold(events: seq<Event>)
    requires events != []
    ensures events == [events[0]] + events[1..]
    ensures SamplesOf(events) == (if events[0].Sample? then [(events[0].wavelength, events[0].value)] else []) + SamplesOf(events[1..])
    ensures CommentsOf(events) == (if events[0].Comment? then [events[0].text] else []) + CommentsOf(events[1..])
  {
    OfCons(events[0], events[1..]);
  }

  /** Entries are only ever added: whatever happens, nothing already in the
      map is removed or overwritten. */
  lemma {:induction false} DispatchKeeps(p: Precision, policy: Policy, m: map<real, real>, events: seq<Event>, t: Option<Error>)
    ensures var r := Dispatch(Validation(p, policy), m, events, t).state;
      forall k :: k in m ==> k in r && r[k] == m[k]
    decreases |events|
  {
    if events != [] {
      var step := Handle(Validation(p, policy), m, events[0]);
      match events[0] {
        case Comment(_) =>
          assert step.state == m;
        case Sample(w, v) =>
          assert step == SampleStep(p, policy, m, w, v);
          assert forall k :: k in m ==> k in step.state && step.state[k] == m[k];
      }
      if step.outcome.Pass? {
        DispatchKeeps(p, policy, step.state, events[1..], t);
      }
    }
  }

  /** A sample the reader accepts passed the checks, had a wavelength new
      to the map, was accepted by the policy, and added exactly its entry. */
  lemma SampleStepPasses(p: Precision, policy: Policy, m: map<real, real>, w: real, v: real)
    requires SampleStep(p, policy, m, w, v).outcome.Pass?
    ensures Checked(p, (w, v)).Success?
    ensures var (k, x) := Checked(p, (w, v)).value;
      && k !in m
      && policy.sample(k, x) == Pass
      && SampleStep(p, policy, m, w, v).state == m[k := x]
      && |m[k := x]| == |m| + 1
  {
  }

  /** A successful reading met no error in the document, and the policy
      accepted every comment. */
  lemma {:induction false} DispatchComments(p: Precision, policy: Policy, m: map<real, real>, events: seq<Event>, t: Option<Error>)
    ensures var r := Dispatch(Validation(p, policy), m, events, t);
      var comments := CommentsOf(events);
      r.outcome.Pass? ==>
        && t.None?
        && forall i :: 0 <= i < |comments| ==> policy.comment(comments[i]) == Pass
    decreases |events|
  {
    if events == [] {
      return;
    }
    var h := Validation(p, policy);
    var step := Handle(h, m, events[0]);
    if step.outcome.Fail? {
      return;
    }
    var rest := events[1..];
    assert Dispatch(h, m, events, t) == Dispatch(h, step.state, rest, t);
    DispatchComments(p, policy, step.state, rest, t);
    Unfold(events);
    match events[0] {
      case Comment(text) =>
        assert step == Step(m, policy.comment(text));
        assert CommentsOf(events) == [text] + CommentsOf(rest);
      case Sample(w, v) =>
        assert [] + CommentsOf(rest) == CommentsOf(rest);
    }
  }

  /** A successful reading stored every sample: each passed the checks and
      has its narrowed entry in the map, with the policy's approval. */
  lemma {:induction false} DispatchStores(p: Precision, policy: Policy, m: map<real, real>, events: seq<Event>, t: Option<Error>)
    ensures Dispatch(Validation(p, policy), m, events, t).outcome.Pass? ==>
      forall i :: 0 <= i < |SamplesOf(events)| ==>
        Stored(p, policy, Dispatch(Validation(p, policy), m, events, t).state, SamplesOf(events)[i])
    decreases |events|
  {
    if events == [] {
      return;
    }
    var h := Validation(p, policy);
    var step := Handle(h, m, events[0]);
    if step.outcome.Fail? {
      return;
    }
    var rest := events[1..];
    var r := Dispatch(h, step.state, rest, t);
    assert Dispatch(h, m, events, t) == r;
    DispatchStores(p, policy, step.state, rest, t);
    Unfold(events);
    match events[0] {
      case Comment(text) =>
        assert step == Step(m, policy.comment(text));
        assert [] + SamplesOf(rest) == SamplesOf(rest);
      case Sample(w, v) =>
        assert step == SampleStep(p, policy, m, w, v);
        SampleStepPasses(p, policy, m, w, v);
        DispatchKeeps(p, policy, step.state, rest, t);
        var (k, x) := Checked(p, (w, v)).value;
        assert k in step.state && step.state[k] == x;
        assert k in r.state && r.state[k] == x;
        assert SamplesOf(events) == [(w, v)] + SamplesOf(rest);
        assert Stored(p, policy, r.state, (w, v));
    }
  }

  /** In a successful reading every sample had a wavelength new to the map
      it started from, and no two samples had the same one. */
  lemma {:induction false} DispatchFresh(p: Precision, policy: Policy, m: map<real, real>, events: seq<Event>, t: Option<Error>)
    ensures var r := Dispatch(Validation(p, policy), m, events, t);
      r.outcome.Pass? ==> FreshKeys(p, m, SamplesOf(events))
    decreases |events|
  {
    if events == [] {
      return;
    }
    var h := Validation(p, policy);
    var step := Handle(h, m, events[0]);
    if step.outcome.Fail? {
      return;
    }
    var rest := events[1..];
    assert Dispatch(h, m, events, t) == Dispatch(h, step.state, rest, t);
    DispatchFresh(p, policy, step.state, rest, t);
    Unfold(events);
    match events[0] {
      case Comment(text) =>
        assert step == Step(m, policy.comment(text));
        assert [] + SamplesOf(rest) == SamplesOf(rest);
      case Sample(w, v) =>
        assert step == SampleStep(p, policy, m, w, v);
        SampleStepPasses(p, policy, m, w, v);
        assert SamplesOf(events) == [(w, v)] + SamplesOf(rest);
        if Dispatch(h, step.state, rest, t).outcome.Pass? {
          var c := Checked(p, (w, v)).value;
          assert step.state == m[c.0 := c.1];
          FreshCons(p, m, c.0, c.1, (w, v), SamplesOf(rest));
        }
    }
  }

  lemma FreshCons(p: Precision, m: map<real, real>, k: real, x: real, sample: (real, real), later: seq<(real, real)>)
    requires Checked(p, sample) == Success((k, x)) && k !in m
    requires FreshKeys(p, m[k := x], later)
    ensures FreshKeys(p, m, [sample] + later)
  {
    var samples := [sample] + later;
    forall i | 0 <= i < |samples| && Checked(p, samples[i]).Success?
      ensures Checked(p, samples[i]).value.0 !in m
    {
      if i > 0 {
        assert samples[i] == later[i - 1];
      }
    }
    forall i, j | 0 <= i < j < |samples| && Checked(p, samples[i]).Success? && Checked(p, samples[j]).Success?
      ensures Checked(p, samples[i]).value.0 != Checked(p, samples[j]).value.0
    {
      assert samples[j] == later[j - 1];
      if i > 0 {
        assert samples[i] == later[i - 1];
      }
    }
  }

  /** A successful reading adds one entry per sample. */
  lemma {:induction false} DispatchGrows(p: Precision, policy: Policy, m: map<real, real>, events: seq<Event>, t: Option<Error>)
    ensures var r := Dispatch(Validation(p, policy), m, events, t);
      r.outcome.Pass? ==> |r.state| == |m| + |SamplesOf(events)|
    decreases |events|
  {
    if events == [] {
      return;
    }
    var h := Validation(p, policy);
    var step := Handle(h, m, events[0]);
    if step.outcome.Fail? {
      return;
    }
    var rest := events[1..];
    assert Dispatch(h, m, events, t) == Dispatch(h, step.state, rest, t);
    DispatchGrows(p, policy, step.state, rest, t);
    Unfold(events);
    match events[0] {
      case Comment(text) =>
        assert step == Step(m, policy.comment(text));
        assert [] + SamplesOf(rest) == SamplesOf(rest);
      case Sample(w, v) =>
        assert step == SampleStep(p, policy, m, w, v);
        SampleStepPasses(p, policy, m, w, v);
        assert |SamplesOf(events)| == 1 + |SamplesOf(rest)|;
    }
  }

  /** Each entry a successful reading adds is the narrowed entry of one of
      the samples. */
  lemma {:induction false} DispatchAdds(p: Precision, policy: Policy, m: map<real, real>, events: seq<Event>, t: Option<Error>)
    ensures var r := Dispatch(Validation(p, policy), m, events, t);
      var samples := SamplesOf(events);
      r.outcome.Pass? ==>
        forall k :: k in r.state ==>
          k in m || exists i :: 0 <= i < |samples| && Checked(p, samples[i]) == Success((k, r.state[k]))
    decreases |events|
  {
    if events == [] {
      return;
    }
    var h := Validation(p, policy);
    var step := Handle(h, m, events[0]);
    if step.outcome.Fail? {
      return;
    }
    var rest := events[1..];
    var r := Dispatch(h, step.state, rest, t);
    assert Dispatch(h, m, events, t) == r;
    DispatchAdds(p, policy, step.state, rest, t);
    Unfold(events);
    match events[0] {
      case Comment(text) =>
        assert step == Step(m, policy.comment(text));
        assert [] + SamplesOf(rest) == SamplesOf(rest);
      case Sample(w, v) =>
        assert step == SampleStep(p, policy, m, w, v);
        SampleStepPasses(p, policy, m, w, v);
        DispatchKeeps(p, policy, step.state, rest, t);
        assert SamplesOf(events) == [(w, v)] + SamplesOf(rest);
        if r.outcome.Pass? {
          AddsCons(p, m, (w, v), SamplesOf(rest), r.state);
        }
    }
  }

  lemma AddsCons(p: Precision, m: map<real, real>, sample: (real, real), later: seq<(real, real)>, final: map<real, real>)
    requires Checked(p, sample).Success?
    requires var (k, x) := Checked(p, sample).value;
      && k in final && final[k] == x
      && forall j :: j in final ==>
           j in m[k := x] || exists i :: 0 <= i < |later| && Checked(p, later[i]) == Success((j, final[j]))
    ensures var samples := [sample] + later;
      forall j :: j in final ==>
        j in m || exists i :: 0 <= i < |samples| && Checked(p, samples[i]) == Success((j, final[j]))
  {
    var (k, x) := Checked(p, sample).value;
    var samples := [sample] + later;
    forall j | j in final
      ensures j in m || exists i :: 0 <= i < |samples| && Checked(p, samples[i]) == Success((j, final[j]))
    {
      if j == k {
        assert Checked(p, samples[0]) == Success((j, final[j]));
      } else if j !in m {
        var i :| 0 <= i < |later| && Checked(p, later[i]) == Success((j, final[j]));
        assert samples[i + 1] == later[i];
      }
    }
  }

  /** The document has no error, the policy accepts every comment and
      every checked sample, every sample passes the checks, and the samples'
      narrowed wavelengths are new to `m` and distinct. */
  ghost predicate Acceptable(p: Precision, policy: Policy, m: map<real, real>, events: seq<Event>, t: Option<Error>) {
    var samples, comments := SamplesOf(events), CommentsOf(events);
    && t.None?
    && (forall i :: 0 <= i < |comments| ==> policy.comment(comments[i]) == Pass)
    && (forall i :: 0 <= i < |samples| ==>
          var c := Checked(p, samples[i]);
          c.Success? && policy.sample(c.value.0, c.value.1) == Pass)
    && FreshKeys(p, m, samples)
  }

  /** Conversely, a document with no error whose comments the policy
      accepts and whose samples pass the checks, have new and distinct
      wavelengths and are accepted by the policy is read successfully. */
  lemma {:induction false} DispatchAccepts(p: Precision, policy: Policy, m: map<real, real>, events: seq<Event>, t: Option<Error>)
    requires Acceptable(p, policy, m, events, t)
    ensures Dispatch(Validation(p, policy), m, events, t).outcome.Pass?
    decreases |events|
  {
    if events == [] {
      return;
    }
    var h := Validation(p, policy);
    var rest := events[1..];
    Unfold(events);
    match events[0] {
      case Comment(text) =>
        var comments, later := CommentsOf(events), CommentsOf(rest);
        assert comments[0] == text;
        forall i | 0 <= i < |later|
          ensures later[i] == comments[i + 1]
        {
        }
        assert SamplesOf(events) == SamplesOf(rest) by {
          assert [] + SamplesOf(rest) == SamplesOf(rest);
        }
        DispatchAccepts(p, policy, m, rest, t);
      case Sample(w, v) =>
        var samples, later := SamplesOf(events), SamplesOf(rest);
        assert samples[0] == (w, v);
        var (k, x) := Checked(p, (w, v)).value;
        var step := Handle(h, m, events[0]);
        assert step == Step(m[k := x], Pass);
        forall i | 0 <= i < |later|
          ensures later[i] == samples[i + 1]
        {
        }
        assert CommentsOf(events) == CommentsOf(rest) by {
          assert [] + CommentsOf(rest) == CommentsOf(rest);
        }
        forall i | 0 <= i < |later| && Checked(p, later[i]).Success?
          ensures Checked(p, later[i]).value.0 !in m[k := x]
        {
          assert Checked(p, samples[0]).value.0 != Checked(p, samples[i + 1]).value.0;
        }
        forall i, j | 0 <= i < j < |later| && Checked(p, later[i]).Success? && Checked(p, later[j]).Success?
          ensures Checked(p, later[i]).value.0 != Checked(p, later[j]).value.0
        {
          assert samples[i + 1] == later[i] && samples[j + 1] == later[j];
        }
        DispatchAccepts(p, policy, m[k := x], rest, t);
    }
  }

  /** An entry point succeeds exactly when the document has no error, the
      policy accepts every comment and every checked sample, every sample
      passes the checks, and no two samples narrow to the same wavelength. */
  lemma ReadSpdAccepts(p: Precision, policy: Policy, bytes: string)
    ensures ReadSpd(p, policy, Good(bytes)).Success? <==>
      Acceptable(p, policy, map[], Scan(bytes).events, Scan(bytes).trailing)
  {
    var scanned := Scan(bytes);
    var samples := SamplesOf(scanned.events);
    var r := Dispatch(Validation(p, policy), map[], scanned.events, scanned.trailing);
    assert Read(Validation(p, policy), map[], Good(bytes)) == r;
    DispatchComments(p, policy, map[], scanned.events, scanned.trailing);
    DispatchStores(p, policy, map[], scanned.events, scanned.trailing);
    DispatchFresh(p, policy, map[], scanned.events, scanned.trailing);
    if r.outcome.Pass? {
      var m := r.state;
      forall i | 0 <= i < |samples|
        ensures var c := Checked(p, samples[i]); c.Success? && policy.sample(c.value.0, c.value.1) == Pass
      {
        assert Stored(p, policy, m, samples[i]);
      }
      assert scanned.trailing.None?;
      assert FreshKeys(p, map[], samples);
      assert forall i :: 0 <= i < |CommentsOf(scanned.events)| ==> policy.comment(CommentsOf(scanned.events)[i]) == Pass;
    } else if Acceptable(p, policy, map[], scanned.events, scanned.trailing) {
      DispatchAccepts(p, policy, map[], scanned.events, scanned.trailing);
    }
  }

  /** The map an entry point returns holds exactly the narrowed samples of
      the document, one entry per sample, and keeps the class invariant:
      every wavelength positive, every power non-negative, both values of
      the target precision. */
  lemma ReadSpdResult(p: Precision, policy: Policy, bytes: string)
    ensures var samples := SamplesOf(Scan(bytes).events);
      ReadSpd(p, policy, Good(bytes)).Success? ==>
        var m := ReadSpd(p, policy, Good(bytes)).value;
        && ValidSamples(p, m)
        && |m| == |samples|
        && (forall i :: 0 <= i < |samples| ==> Stored(p, policy, m, samples[i]))
        && (forall k :: k in m ==> exists i :: 0 <= i < |samples| && Checked(p, samples[i]) == Success((k, m[k])))
  {
    var scanned := Scan(bytes);
    var samples := SamplesOf(scanned.events);
    DispatchStores(p, policy, map[], scanned.events, scanned.trailing);
    DispatchGrows(p, policy, map[], scanned.events, scanned.trailing);
    DispatchAdds(p, policy, map[], scanned.events, scanned.trailing);
    if ReadSpd(p, policy, Good(bytes)).Success? {
      var m := ReadSpd(p, policy, Good(bytes)).value;
      forall k | k in m
        ensures k > 0.0 && m[k] >= 0.0 && Representable(p, k) && Representable(p, m[k])
      {
        var i :| 0 <= i < |samples| && Checked(p, samples[i]) == Success((k, m[k]));
      }
    }
  }

  /** A reader that cannot read its stream fails with nothing stored. */
  lemma ReadSpdBadStream(p: Precision, policy: Policy)
    ensures ReadSpd(p, policy, Bad) == Failure(BadStream)
  {
  }

  // ---------------------------------------------------------------------
  // Order of the result
  // ---------------------------------------------------------------------

  /** A set of wavelengths that is not empty holds one. */
  lemma Inhabited(keys: set<real>)
    requires |keys| > 0
    ensures exists x :: x in keys
  {
    // Splitting on the opposite case is what lets the cardinality fact apply.
    if forall x: real :: x !in keys {
    }
  }

  /** The least of a finite set of wavelengths that is not empty. */
  ghost function LeastOf(keys: set<real>): (k: real)
    requires |keys| > 0
    ensures k in keys && forall j :: j in keys ==> k <= j
    decreases |keys|
  {
    Inhabited(keys);
    var x :| x in keys;
    var others := keys - {x};
    if |others| == 0 then
      assert forall j :: j in keys ==> j == x by {
        forall j | j in keys ensures j == x {
          assert j !in others;
        }
      }
      x
    else
      var k := LeastOf(others);
      assert forall j :: j in keys ==> j == x || j in others;
      if x < k then x else k
  }

  /** The least wavelength of a map. */
  ghost function Least(m: map<real, real>): (k: real)
    requires |m| > 0
    ensures k in m && forall j :: j in m ==> k <= j
  {
    assert |m.Keys| == |m|;
    LeastOf(m.Keys)
  }

  /** The entries of a `std::map` in the order it lists them. */
  ghost function Entries(m: map<real, real>): seq<(real, real)>
    decreases |m|
  {
    if |m| == 0 then []
    else
      var k := Least(m);
      var rest := m - {k};
      assert |rest.Keys| < |m.Keys| by {
        assert rest.Keys == m.Keys - {k};
      }
      [(k, m[k])] + Entries(rest)
  }

  lemma EntriesStep(m: map<real, real>)
    requires |m| > 0
    ensures var k := Least(m);
      && Entries(m) == [(k, m[k])] + Entries(m - {k})
      && (m - {k}).Keys == m.Keys - {k}
      && |m - {k}| == |m| - 1
  {
    var k := Least(m);
    assert (m - {k}).Keys == m.Keys - {k};
  }

  /** A key no greater than any other is the one listed first. */
  lemma EntriesFrom(m: map<real, real>, k: real)
    requires k in m && forall j :: j in m ==> k <= j
    ensures Entries(m) == [(k, m[k])] + Entries(m - {k})
  {
    var least := Least(m);
    assert least <= k && k <= least;
    EntriesStep(m);
  }

  /** Every entry listed is an entry of the map, and there are as many as
      the map has. */
  lemma {:induction false} EntriesFromMap(m: map<real, real>)
    ensures var r := Entries(m);
      && |r| == |m|
      && forall i :: 0 <= i < |r| ==> r[i].0 in m && m[r[i].0] == r[i].1
    decreases |m|
  {
    if |m| > 0 {
      var k := Least(m);
      EntriesStep(m);
      EntriesFromMap(m - {k});
    }
  }

  /** Every entry of the map is listed. */
  lemma {:induction false} EntriesComplete(m: map<real, real>)
    ensures forall k :: k in m ==> (k, m[k]) in Entries(m)
    decreases |m|
  {
    if |m| > 0 {
      var k := Least(m);
      var rest := m - {k};
      EntriesStep(m);
      EntriesComplete(rest);
      forall j | j in m
        ensures (j, m[j]) in Entries(m)
      {
        if j != k {
          assert j in rest && (j, rest[j]) in Entries(rest);
        }
      }
    }
  }

  lemma SortedCons(head: (real, real), later: seq<(real, real)>)
    requires forall n :: 0 <= n < |later| ==> head.0 < later[n].0
    requires forall i, j :: 0 <= i < j < |later| ==> later[i].0 < later[j].0
    ensures var r := [head] + later;
      forall i, j :: 0 <= i < j < |r| ==> r[i].0 < r[j].0
  {
    var r := [head] + later;
    forall i, j | 0 <= i < j < |r|
      ensures r[i].0 < r[j].0
    {
      assert r[j] == later[j - 1];
      if i > 0 {
        assert r[i] == later[i - 1];
      }
    }
  }

  /** The entries are listed by strictly ascending wavelength, whatever
      order they were inserted in. */
  lemma {:induction false} EntriesSorted(m: map<real, real>)
    ensures var r := Entries(m);
      forall i, j :: 0 <= i < j < |r| ==> r[i].0 < r[j].0
    decreases |m|
  {
    if |m| > 0 {
      var k := Least(m);
      var rest := m - {k};
      EntriesStep(m);
      EntriesSorted(rest);
      EntriesFromMap(rest);
      var later := Entries(rest);
      forall n | 0 <= n < |later|
        ensures k < later[n].0
      {
        assert later[n].0 in rest;
      }
      SortedCons((k, m[k]), later);
    }
  }
}
