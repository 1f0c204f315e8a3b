/** What a passed readback check says about the outputs. */
module EndToEnd {
  import opened Bits
  import opened Wrappers
  import opened Elements
  import opened PulseSequence
  import opened Workflow
  import opened FifoFields
  import opened ReadbackCheck
  import opened Scan

  lemma LoadIgnoresStart(e: El, a: word, b: word)
    requires e.IsRegular() ==> e.valueKind == BitLoad
    ensures Clocks(a, e) == Clocks(b, e)
    ensures e.IsRegular() ==> After(a, e) == After(b, e) == e.value
  {
  }

  /** A sequence of loads does not depend on the output before it. */
  lemma {:induction false} LoadsIgnoreStart(s: seq<El>, a: word, b: word)
    requires AllLoads(s)
    ensures Waveform(s, a) == Waveform(s, b)
    decreases s
  {
    if s != [] {
      LoadIgnoresStart(s[0], a, b);
      LoadsIgnoreStart(s[1..], After(a, s[0]), After(b, s[0]));
    }
  }

  lemma NoClocks(e: El, v: word)
    requires !IsPulse(e)
    ensures Clocks(v, e) == []
  {
  }

  /** Leaving out what encodes no pulse keeps the stream of a sequence of loads. */
  lemma {:induction false} PulsesKeepWaveform(s: seq<El>, v: word)
    requires AllLoads(s)
    ensures Waveform(Pulses(s), v) == Waveform(s, v) && AllLoads(Pulses(s))
    decreases s
  {
    if s != [] {
      var rest := s[1..];
      if IsPulse(s[0]) {
        PulsesKeepWaveform(rest, After(v, s[0]));
        assert Pulses(s) == [s[0]] + Pulses(rest);
        assert Pulses(s)[1..] == Pulses(rest);
      } else {
        PulsesKeepWaveform(rest, v);
        assert Pulses(s) == Pulses(rest);
        NoClocks(s[0], v);
        LoadsIgnoreStart(rest, v, After(v, s[0]));
      }
    }
  }

  lemma SameClocks(x: El, y: El, v: word)
    requires x.Same(y) && (x.IsRegular() ==> x.valueKind == BitLoad && y.valueKind == BitLoad)
    ensures Clocks(v, x) == Clocks(v, y) && After(v, x) == After(v, y)
  {
  }

  lemma {:induction false} MatchingWaveform(xs: seq<El>, ys: seq<El>, v: word)
    requires SameSequence(xs, ys) && AllLoads(xs) && AllLoads(ys)
    ensures Waveform(xs, v) == Waveform(ys, v)
    decreases xs
  {
    if xs != [] {
      assert xs[0].Same(ys[0]);
      SameClocks(xs[0], ys[0], v);
      MatchingWaveform(xs[1..], ys[1..], After(v, xs[0]));
    }
  }

  predicate IsLoad(e: El) { e.IsRegular() ==> e.valueKind == BitLoad }

  lemma LoadsFirst(x: El, s: seq<El>)
    ensures AllLoads([x] + s) <==> IsLoad(x) && AllLoads(s)
  {
    var t := [x] + s;
    assert t[0] == x;
    assert forall i :: 0 <= i < |s| ==> s[i] == t[i + 1];
  }

  lemma {:induction false} MergedLoads(x: El, s: seq<El>)
    requires MergeInto(x, s).Ok? && IsLoad(x) && AllLoads(s)
    ensures AllLoads(MergeInto(x, s).value)
    decreases s
  {
    if s == [] {
      LoadsFirst(x, []);
      assert [x] + [] == [x];
    } else {
      assert [s[0]] + s[1..] == s;
      LoadsFirst(s[0], s[1..]);
      if Mergeable(x, s[0]) {
        MergedLoads(x.WithCount(x.count + s[0].count), s[1..]);
      } else {
        MergedLoads(s[0], s[1..]);
        LoadsFirst(x, MergeInto(s[0], s[1..]).value);
      }
    }
  }

  lemma RecordedLoads(words: seq<u32>, n: nat)
    requires n <= |Recorded(words)|
    ensures AllLoads(Recorded(words)[..n])
  {
    RecordedPlain(words);
    forall i | 0 <= i < n ensures Recorded(words)[..n][i].valueKind == BitLoad { assert PlainLoad(Recorded(words)[i]); }
  }

  /**
    If the readback check passes against the normalised form of s, the elements that the words from
    the FIFO make up are, as a stream, exactly what s means when started at output v.
  */
  lemma PassedCheckMeansStream(s: seq<El>, v: word, reference: seq<El>, polls: seq<bool>, words: seq<u32>, v': word)
    requires forall i :: 0 <= i < |s| ==> Coherent(s[i])
    requires Merged(BitLoads(s, v)) == Ok(reference) && reference != [] && Passes(reference, polls, Recorded(words))
    ensures var n := |Pulses(reference)|;
      n <= |Recorded(words)| && Waveform(Recorded(words)[..n], v') == Waveform(s, v)
  {
    var loads := BitLoads(s, v);
    BitLoadsKeepWaveform(s, v, v');
    assert AllLoads(reference) by {
      if loads != [] {
        assert [loads[0]] + loads[1..] == loads;
        LoadsFirst(loads[0], loads[1..]);
        MergedLoads(loads[0], loads[1..]);
      }
    }
    NormalisedStream(s, v, v');
    PulsesKeepWaveform(reference, v');
    RecordedLoads(words, |Pulses(reference)|);
    MatchingWaveform(Recorded(words)[..|Pulses(reference)|], Pulses(reference), v');
  }

  // ----- which sequences can pass

  /** No pulse has a bit set in its control word, other than those that say how the value is applied. */
  predicate PlainPulses(s: seq<El>) { forall i :: 0 <= i < |s| && IsPulse(s[i]) ==> ClearMode(s[i].control) == 0 }

  predicate ZeroPulses(s: seq<El>) { forall i :: 0 <= i < |s| && IsPulse(s[i]) ==> s[i].control == 0 }

  lemma FirstPulse(x: El, s: seq<El>)
    ensures ZeroPulses([x] + s) <==> (IsPulse(x) ==> x.control == 0) && ZeroPulses(s)
  {
    var t := [x] + s;
    assert t[0] == x;
    assert forall i :: 0 <= i < |s| ==> s[i] == t[i + 1];
  }

  lemma FirstControl(x: El, s: seq<El>)
    ensures NoControl([x] + s) <==> x.control == 0 && NoControl(s)
  {
    var t := [x] + s;
    assert t[0] == x;
    assert forall i :: 0 <= i < |s| ==> s[i] == t[i + 1];
  }

  lemma {:induction false} PulsesControl(s: seq<El>)
    ensures NoControl(Pulses(s)) <==> ZeroPulses(s)
  {
    if s != [] {
      var rest := s[1..];
      assert [s[0]] + rest == s;
      FirstPulse(s[0], rest);
      PulsesControl(rest);
      if IsPulse(s[0]) {
        FirstControl(s[0], Pulses(rest));
        assert Pulses(s) == [s[0]] + Pulses(rest);
        assert NoControl(Pulses(s)) <==> s[0].control == 0 && NoControl(Pulses(rest));
        assert ZeroPulses(s) <==> s[0].control == 0 && ZeroPulses(rest);
      } else {
        assert Pulses(s) == Pulses(rest);
      }
    }
  }

  lemma {:induction false} MergedControl(x: El, s: seq<El>)
    requires MergeInto(x, s).Ok?
    ensures ZeroPulses(MergeInto(x, s).value) <==> ZeroPulses([x] + s)
    decreases s
  {
    if s == [] {
      assert [x] + [] == [x];
    } else {
      assert [s[0]] + s[1..] == s;
      FirstPulse(x, s);
      FirstPulse(s[0], s[1..]);
      if Mergeable(x, s[0]) {
        var y := x.WithCount(x.count + s[0].count);
        MergedControl(y, s[1..]);
        FirstPulse(y, s[1..]);
      } else {
        MergedControl(s[0], s[1..]);
        FirstPulse(x, MergeInto(s[0], s[1..]).value);
      }
    }
  }

  lemma NormalControl(e: El, v: word)
    requires e.IsRegular()
    ensures Normal(e, v).control == ClearMode(e.control)
  {
    LoadedControl(e, e.Updated(v));
    NothingAdded(ClearMode(e.control));
  }

  lemma NothingAdded(y: word)
    ensures y | 0 == y
  {
  }

  lemma {:induction false} BitLoadsControl(s: seq<El>, v: word)
    ensures ZeroPulses(BitLoads(s, v)) <==> PlainPulses(s)
    decreases s
  {
    if s != [] {
      var rest := BitLoads(s[1..], After(v, s[0]));
      FirstPulse(Normal(s[0], v), rest);
      BitLoadsControl(s[1..], After(v, s[0]));
      if s[0].IsRegular() { NormalControl(s[0], v); }
      assert PlainPulses(s) <==> (IsPulse(s[0]) ==> ClearMode(s[0].control) == 0) && PlainPulses(s[1..]) by {
        assert forall i :: 0 <= i < |s| - 1 ==> s[1..][i] == s[i + 1];
      }
    }
  }

  /**
    A sequence can pass the check against its own normalised form, for some words and some answers,
    exactly if that form's final element follows its last pulse directly and no pulse of the
    sequence suppresses its strobe or is stored: elements read back carry no control word.
  */
  lemma CanPassNormalised(s: seq<El>, v: word, reference: seq<El>)
    requires Merged(BitLoads(s, v)) == Ok(reference) && reference != []
    ensures (exists polls, words :: Passes(reference, polls, Recorded(words)))
      <==> TightEnd(reference) && PlainPulses(s)
  {
    var loads := BitLoads(s, v);
    assert [loads[0]] + loads[1..] == loads;
    MergedControl(loads[0], loads[1..]);
    BitLoadsControl(s, v);
    PulsesControl(reference);
    CanPassIff(reference);
  }
}
