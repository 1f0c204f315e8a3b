/** What the streaming workflow does with a sequence before it is sent and checked. */
module Workflow {
  import opened Bits
  import opened Wrappers
  import opened Elements
  import opened ElementUpdates
  import opened PulseSequence
  import opened Updates
  import opened Scan

  // ----- final output

  /** Elements whose effect on the output this model leaves open. */
  predicate Opaque(e: El) { !e.IsRegular() && !e.IsTrigger() && !e.IsFinal() }

  predicate HasOpaque(s: seq<El>) { exists i :: 0 <= i < |s| && Opaque(s[i]) }

  /** Sequences whose stream this model defines: regular elements and trigger conditions. */
  predicate Deterministic(s: seq<El>)
  {
    forall i :: 0 <= i < |s| ==> s[i].IsRegular() || s[i].IsTrigger()
  }

  /** The sequence without regular elements of count zero. */
  ghost function DropZero(s: seq<El>): seq<El> { Filter(Emits, s) }

  /** The output that streaming s leaves behind, counting only elements that last at least a clock. */
  ghost function FinalRunning(s: seq<El>, v: word): word { Running(DropZero(s), v) }

  lemma FinalRunningAppend(s: seq<El>, e: El, v: word)
    ensures FinalRunning(s + [e], v) == if Emits(e) then After(FinalRunning(s, v), e) else FinalRunning(s, v)
  {
    FilterConcat(Emits, s, [e]);
    FilterOne(Emits, e);
    EndConcat(After, v, DropZero(s), if Emits(e) then [e] else []);
    ScanOne(After, Clocks, FinalRunning(s, v), e);
  }

  /** `infer_sequence_final_output`. */
  method InferFinalOutput(s: seq<El>, initial: word) returns (r: Result<Option<word>>)
    ensures r.Ok? <==> FinalLast(s)
    ensures Deterministic(s) ==> r == Ok(Some(FinalRunning(s, initial)))
    ensures s != [] && Deterministic(s[..|s| - 1]) && s[|s| - 1].IsFinal()
      ==> r == Ok(Some(s[|s| - 1].Updated(FinalRunning(s[..|s| - 1], initial))))
    ensures r.Ok? && HasOpaque(s) ==> r == Ok(None)
  {
    if exists i :: 0 <= i < |s| - 1 && s[i].IsFinal() { return Err; }
    var current := initial;
    for i := 0 to |s|
      invariant Deterministic(s[..i]) && current == FinalRunning(s[..i], initial)
    {
      var e := s[i];
      assert s[..i + 1] == s[..i] + [e];
      FinalRunningAppend(s[..i], e, initial);
      if e.IsRegular() {
        if e.count != 0 { current := e.Updated(current); }
      } else if e.IsTrigger() {
        continue;
      } else if e.IsFinal() {
        assert i == |s| - 1;
        return Ok(Some(e.Updated(current)));
      } else {
        return Ok(None);
      }
    }
    assert s[..|s|] == s;
    return Ok(Some(current));
  }

  predicate CountsPositive(s: seq<El>)
  {
    forall i :: 0 <= i < |s| ==> Emits(s[i])
  }

  ghost function LastOr(out: seq<word>, v: word): word { if out == [] then v else out[|out| - 1] }

  lemma {:induction false} RunningIsLastOutput(s: seq<El>, v: word)
    requires CountsPositive(s)
    ensures Running(s, v) == LastOr(Waveform(s, v), v)
  {
    if s != [] {
      var w := After(v, s[0]);
      RunningIsLastOutput(s[1..], w);
      assert Emits(s[0]);
      LastOfConcat(Clocks(v, s[0]), Waveform(s[1..], w), v, w);
    }
  }

  lemma LastOfConcat(a: seq<word>, b: seq<word>, v: word, w: word)
    requires LastOr(a, v) == w
    ensures LastOr(a + b, v) == LastOr(b, w)
  {
  }

  lemma {:induction false} DropZeroEmits(s: seq<El>)
    ensures CountsPositive(DropZero(s))
  {
    if s != [] { DropZeroEmits(s[1..]); }
  }

  /** The inferred output is always the last output of the sequence without its zero counts. */
  lemma InferredWithoutZeros(s: seq<El>, v: word)
    ensures FinalRunning(s, v) == LastOr(Waveform(DropZero(s), v), v)
  {
    DropZeroEmits(s);
    RunningIsLastOutput(DropZero(s), v);
  }

  /** A zero-count update x makes no difference to what follows: the next update absorbs it, or no clock follows. */
  ghost predicate Harmless(x: El, rest: seq<El>)
  {
    if rest == [] then true
    else if !rest[0].IsRegular() then Harmless(x, rest[1..])
    else Length(rest) == 0 || Absorbs(x.valueKind, x.value, rest[0].valueKind, rest[0].value)
  }

  /** Every zero-count update is harmless. So are all of them in a sequence of loads. */
  ghost predicate ZerosHarmless(s: seq<El>)
  {
    forall i :: 0 <= i < |s| && !Emits(s[i]) ==> Harmless(s[i], s[i + 1..])
  }

  lemma {:induction false} HarmlessStart(x: El, rest: seq<El>, v: word)
    requires Harmless(x, rest)
    ensures Waveform(rest, x.Updated(v)) == Waveform(rest, v)
  {
    if rest != [] {
      if !rest[0].IsRegular() {
        HarmlessStart(x, rest[1..], v);
      } else if Length(rest) == 0 {
        WaveformLength(rest, v);
        WaveformLength(rest, x.Updated(v));
      } else {
        AbsorbedElement(x, rest[0], v);
      }
    }
  }

  lemma AbsorbedElement(x: El, y: El, v: word)
    requires Absorbs(x.valueKind, x.value, y.valueKind, y.value)
    ensures y.Updated(x.Updated(v)) == y.Updated(v)
  {
    Absorbed(x.valueKind, x.value, y.valueKind, y.value, v);
  }

  lemma HarmlessRest(s: seq<El>)
    requires s != [] && ZerosHarmless(s)
    ensures ZerosHarmless(s[1..]) && (!Emits(s[0]) ==> Harmless(s[0], s[1..]))
  {
    forall i | 0 <= i < |s[1..]| && !Emits(s[1..][i]) ensures Harmless(s[1..][i], s[1..][i + 1..]) {
      assert s[1..][i] == s[i + 1] && s[1..][i + 1..] == s[i + 2..];
    }
  }

  /** Then leaving them out keeps the whole stream. */
  lemma {:induction false} DropZeroKeepsWaveform(s: seq<El>, v: word)
    requires ZerosHarmless(s)
    ensures Waveform(DropZero(s), v) == Waveform(s, v)
  {
    if s != [] {
      HarmlessRest(s);
      if Emits(s[0]) {
        DropZeroKeepsWaveform(s[1..], After(v, s[0]));
        FirstAndRest(s[0], DropZero(s[1..]));
      } else {
        DropZeroKeepsWaveform(s[1..], v);
        HarmlessStart(s[0], s[1..], v);
        assert [] + DropZero(s[1..]) == DropZero(s[1..]);
      }
    }
  }

  /** So the inferred final output is the last output of the stream. */
  lemma InferredIsLastOutput(s: seq<El>, v: word)
    requires ZerosHarmless(s)
    ensures FinalRunning(s, v) == LastOr(Waveform(s, v), v)
  {
    InferredWithoutZeros(s, v);
    DropZeroKeepsWaveform(s, v);
  }

  lemma PositiveIsHarmless(s: seq<El>)
    requires CountsPositive(s)
    ensures ZerosHarmless(s)
  {
  }

  lemma {:induction false} LoadsHarmless(x: El, rest: seq<El>)
    requires AllLoads(rest)
    ensures Harmless(x, rest)
  {
    if rest != [] {
      if rest[0].IsRegular() {
        LoadAbsorbs(x.valueKind, x.value, rest[0].value);
      } else {
        LoadsHarmless(x, rest[1..]);
      }
    }
  }

  lemma LoadsAreHarmless(s: seq<El>)
    requires AllLoads(s)
    ensures ZerosHarmless(s)
  {
    forall i | 0 <= i < |s| && !Emits(s[i]) ensures Harmless(s[i], s[i + 1..]) { LoadsHarmless(s[i], s[i + 1..]); }
  }

  lemma FirstRegularOutput(y: El, rest: seq<El>, v: word)
    requires y.IsRegular() && y.count > 0
    ensures Waveform([y] + rest, v) != [] && Waveform([y] + rest, v)[0] == y.Updated(v)
  {
    FirstAndRest(y, rest);
  }

  lemma UpdateTells(x: El, y: El) returns (v: word)
    requires !Absorbs(x.valueKind, x.value, y.valueKind, y.value)
    ensures y.Updated(x.Updated(v)) != y.Updated(v)
  {
    v := NotAbsorbed(x.valueKind, x.value, y.valueKind, y.value);
  }

  lemma {:induction false} StartTells(x: El, rest: seq<El>) returns (v: word)
    requires rest != [] && rest[0].IsRegular() && rest[0].count > 0
    requires !Absorbs(x.valueKind, x.value, rest[0].valueKind, rest[0].value)
    ensures Waveform(rest, x.Updated(v)) != Waveform(rest, v)
  {
    v := UpdateTells(x, rest[0]);
    assert [rest[0]] + rest[1..] == rest;
    FirstRegularOutput(rest[0], rest[1..], v);
    FirstRegularOutput(rest[0], rest[1..], x.Updated(v));
  }

  lemma {:induction false} StartIff(x: El, rest: seq<El>)
    requires CountsPositive(rest)
    ensures (forall v :: Waveform(rest, x.Updated(v)) == Waveform(rest, v)) <==> Harmless(x, rest)
  {
    if rest != [] {
      if !rest[0].IsRegular() {
        StartIff(x, rest[1..]);
        assert forall v :: Waveform(rest, v) == Waveform(rest[1..], v);
      } else if Harmless(x, rest) {
        forall v ensures Waveform(rest, x.Updated(v)) == Waveform(rest, v) { HarmlessStart(x, rest, v); }
      } else {
        var v := StartTells(x, rest);
      }
    }
  }

  /** In front of elements that last, a zero-count update may go for every previous output exactly if it is harmless. */
  lemma DropFirstIff(x: El, rest: seq<El>)
    requires x.IsRegular() && x.count == 0 && CountsPositive(rest)
    ensures (forall v :: Waveform([x] + rest, v) == Waveform(rest, v)) <==> Harmless(x, rest)
  {
    StartIff(x, rest);
    forall v ensures Waveform([x] + rest, v) == Waveform(rest, x.Updated(v)) {
      FirstAndRest(x, rest);
      assert Repeat(x.Updated(v), 0) + Waveform(rest, x.Updated(v)) == Waveform(rest, x.Updated(v));
    }
  }

  /** A zero-count load before an update that depends on it: the stream ends with 1, the inferred output is 0. */
  lemma ZeroCountsDisagree(x: El, y: El)
    requires x == Load(0, 1) && y == El(0x60, 1, 0, CPlain, BitOr)
    ensures FinalRunning([x, y], 0) == 0 && LastOr(Waveform([x, y], 0), 0) == 1
  {
    assert x.IsRegular() && y.IsRegular() && x.Updated(0) == 1 && y.Updated(1) == 1 && y.Updated(0) == 0;
    TwoElements(x, y, 0);
    assert Repeat(1, 0) + Repeat(1, 1) == Repeat(1, 1);
    FilterConcat(Emits, [x], [y]);
    FilterOne(Emits, x);
    FilterOne(Emits, y);
    assert [x] + [y] == [x, y] && [] + [y] == [y];
    ScanOne(After, Clocks, 0, y);
  }

  // ----- reference for the readback check

  /** `convert_for_readback_check`. */
  method ConvertForReadbackCheck(s: seq<El>, initial: word) returns (r: Result<seq<El>>)
    ensures r == Merged(BitLoads(s, initial))
  {
    var loads := ConvertToBitLoad(s, initial);
    r := Merge(loads);
  }

  /**
    The normalised sequence produces, from any previous output, exactly the stream of the original
    one started at `v`; no joinable neighbours are left in it, and it fails only on a run of over
    2^32-1 clocks.
  */
  lemma NormalisedStream(s: seq<El>, v: word, v': word)
    requires forall i :: 0 <= i < |s| ==> Coherent(s[i])
    ensures var loads := BitLoads(s, v); var r := Merged(loads);
      && (r.Err? <==> HasLongRun(loads))
      && (r.Ok? ==>
          && Waveform(r.value, v') == Waveform(s, v)
          && Length(r.value) == Length(s)
          && FullyMerged(r.value))
  {
    var loads := BitLoads(s, v);
    BitLoadsKeepWaveform(s, v, v');
    BitLoadsSafe(s, v);
    MergeFailure(loads);
    if Merged(loads).Ok? {
      MergeShape(loads);
      MergeKeepsWaveform(loads, v');
    }
  }

  lemma BitLoadsSafe(s: seq<El>, v: word)
    requires forall i :: 0 <= i < |s| ==> Coherent(s[i])
    ensures SafeToMerge(BitLoads(s, v))
  {
    var t := BitLoads(s, v);
    BitLoadsCoherent(s, v);
    forall i | 0 <= i < |t| - 1 ensures SafePair(t[i], t[i + 1]) { assert t[i] in t && t[i + 1] in t; }
  }

  lemma {:induction false} BitLoadsCoherent(s: seq<El>, v: word)
    requires forall i :: 0 <= i < |s| ==> Coherent(s[i])
    ensures forall e :: e in BitLoads(s, v) ==> Coherent(e) && (e.IsRegular() ==> e.valueKind == BitLoad)
  {
    if s != [] {
      BitLoadsCoherent(s[1..], After(v, s[0]));
      NormalIsCoherent(s[0], v);
    }
  }

  lemma NormalIsCoherent(e: El, v: word)
    requires Coherent(e)
    ensures Coherent(Normal(e, v))
  {
    if e.IsRegular() { assert CoherentResult(e.AsBitLoadAfter(v)); }
  }

  // ----- appending the final element

  lemma KeptByNothing(v: word)
    ensures ApplyValueKind(BitOr, 0, v) == v
  {
  }

  /** `no_modify_final_output`: a final element whose words keep whatever is on the outputs. */
  lemma NoModifyFinal(v: word)
    ensures var r := FinalEl(Value(BitOr, 0, false));
      && r.Ok? && r.value.IsFinal() && r.value.Updated(v) == v
      && AsSent(r.value).Ok? && AsSent(r.value).value.IsFinal() && AsSent(r.value).value.Updated(v) == v
  {
    FinalActs(Value(BitOr, 0, false));
    KeptByNothing(v);
  }

  /** What the command line asks for as final output. */
  datatype FinalPolicy = NoPolicy | Explicit(value: word) | Random(value: word) | Both

  predicate EndsFinal(s: seq<El>) { s != [] && s[|s| - 1].IsFinal() }

  /** The final element that a sequence without one gets. */
  function FinalElement(policy: FinalPolicy): El
    requires !policy.Both?
  {
    FinalEl(if policy.NoPolicy? then Value(BitOr, 0, false) else Value(Plain, policy.value, false)).value
  }

  /** The words of a final element do to output v what the element itself does. */
  ghost predicate SentAs(e: El, v: word)
  {
    AsSent(e).Ok? && AsSent(e).value.IsFinal() && AsSent(e).value.Updated(v) == e.Updated(v)
  }

  /**
    `append_final_output`: a sequence without a final element gets one, and the reported value is
    what the outputs will hold when it finishes, or nothing if an opaque element leaves that open
    and no value was asked for.
  */
  method AppendFinalOutput(s: seq<El>, policy: FinalPolicy, initial: word) returns (r: Result<(seq<El>, Option<word>)>)
    ensures r.Err? <==> policy.Both? || !FinalLast(s) || (EndsFinal(s) && !policy.NoPolicy?)
    ensures r.Ok? && EndsFinal(s) ==>
      && r.value.0 == s
      && r.value.1 == if HasOpaque(s) then None else Some(s[|s| - 1].Updated(FinalRunning(s[..|s| - 1], initial)))
    ensures r.Ok? && !EndsFinal(s) ==>
      && r.value.0 == s + [FinalElement(policy)] && FinalElement(policy).IsFinal()
      && r.value.1 == (if policy.NoPolicy? && HasOpaque(s) then None
                       else Some(FinalElement(policy).Updated(FinalRunning(s, initial))))
      && (!policy.NoPolicy? ==> r.value.1 == Some(policy.value))
      && (policy.NoPolicy? && !HasOpaque(s) ==> r.value.1 == Some(FinalRunning(s, initial)))
      && SentAs(FinalElement(policy), FinalRunning(s, initial))
  {
    if policy.Both? { return Err; }
    if exists i :: 0 <= i < |s| - 1 && s[i].IsFinal() { return Err; }
    if s != [] && s[|s| - 1].IsFinal() {
      if !policy.NoPolicy? { return Err; }
      var inferred := InferFinalOutput(s, initial);
      return Ok((s, inferred.value));
    }
    if !policy.NoPolicy? {
      FinalLoads(policy.value, FinalRunning(s, initial));
      return Ok((s + [FinalElement(policy)], Some(policy.value)));
    }
    NoModifyFinal(FinalRunning(s, initial));
    var s' := s + [FinalElement(policy)];
    WithFinal(s, FinalElement(policy));
    var inferred := InferFinalOutput(s', initial);
    return Ok((s', inferred.value));
  }

  lemma WithFinal(s: seq<El>, e: El)
    requires FinalLast(s) && !EndsFinal(s) && e.IsFinal()
    ensures var t := s + [e]; t[..|s|] == s && FinalLast(t) && HasOpaque(t) == HasOpaque(s)
    ensures HasOpaque(s) || Deterministic(s)
  {
    var t := s + [e];
    assert forall i :: 0 <= i < |s| ==> t[i] == s[i];
    if HasOpaque(s) {
      var i :| 0 <= i < |s| && Opaque(s[i]);
      assert Opaque(t[i]);
    }
  }

  lemma FinalLoads(w: word, v: word)
    ensures var r := FinalEl(Value(Plain, w, false));
      && r.Ok? && r.value.IsFinal() && r.value.Updated(v) == w
      && AsSent(r.value).Ok? && AsSent(r.value).value.IsFinal() && AsSent(r.value).value.Updated(v) == w
  {
    FinalActs(Value(Plain, w, false));
  }
}
