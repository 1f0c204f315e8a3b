/**
  Exactly when the inferred final output is the last output of the stream. Both are runs of updates,
  so 33 initial outputs decide it for every initial output. Without shifts a run keeps some bits of
  the output it starts from and flips some, and comparing these masks decides it too.
*/
module NetEffect {
  import opened Bits
  import opened Elements
  import opened Updates
  import opened Superposition
  import opened Scan
  import opened PulseSequence
  import opened Workflow

  // ----- every run of updates is affine

  lemma NoUpdateAdditive<S(!new), T>(x: (S, S) -> S, next: (S, T) -> S, e: T)
    requires forall v :: next(v, e) == v
    ensures Additive(x, Move(next, e))
  {
  }

  lemma AfterAdditive(e: El)
    ensures Additive(Xors(), Move(After, e))
  {
    if e.IsRegular() {
      ActAdditive(e.valueKind, e.value);
      SameAdditive(Xors(), Move(After, e), Act(e.valueKind, e.value));
    } else {
      NoUpdateAdditive(Xors(), After, e);
    }
  }

  ghost function RunOf(s: seq<El>): word -> word { Run(After, s) }

  lemma RunOfAdditive(s: seq<El>)
    ensures Additive(Xors(), RunOf(s))
  {
    forall e ensures Additive(Xors(), Move(After, e)) { AfterAdditive(e); }
    RunAdditive(Xors(), After, s);
  }

  /** Two sequences of updates have the same effect on every output exactly if they have it on 33. */
  lemma SameEffectIff(s: seq<El>, t: seq<El>)
    ensures (forall v :: Running(s, v) == Running(t, v))
      <==> Running(s, 0) == Running(t, 0) && forall j: word :: j < 32 ==> Running(s, Unit(j)) == Running(t, Unit(j))
  {
    if Running(s, 0) == Running(t, 0) && forall j: word :: j < 32 ==> Running(s, Unit(j)) == Running(t, Unit(j)) {
      RunOfAdditive(s);
      RunOfAdditive(t);
      forall j: word | j < 32 ensures Same(RunOf(s), RunOf(t), Unit(j)) {
        assert Running(s, Unit(j)) == Running(t, Unit(j));
      }
      UnitsDecide(RunOf(s), RunOf(t));
      forall v ensures Running(s, v) == Running(t, v) { assert RunOf(s)(v) == RunOf(t)(v); }
    }
  }

  // ----- without shifts, masks describe a run

  /** The bits a run of updates keeps, and those it flips. */
  datatype Net = Net(kept: word, flipped: word)

  const NOTHING: Net := Net(0xFFFF_FFFF, 0)

  function Compose(m: Net, k: word, f: word): Net { Net(m.kept & k, (m.flipped & k) ^ f) }

  /** One more element. */
  function Then(m: Net, e: El): Net
  {
    if e.IsRegular() then Compose(m, Kept(e.valueKind, e.value), Flipped(e.valueKind, e.value)) else m
  }

  ghost function NetOf(s: seq<El>): Net { End(Then, NOTHING, s) }

  predicate NoShifts(s: seq<El>) { forall i :: 0 <= i < |s| && s[i].IsRegular() ==> !IsShift(s[i].valueKind) }

  function Apply(m: Net, v: word): word { Affine(m.kept, m.flipped, v) }

  lemma ComposeApplies(m: Net, k: word, f: word, v: word)
    ensures Apply(Compose(m, k, f), v) == Affine(k, f, Apply(m, v))
  {
  }

  lemma NothingApplies(v: word)
    ensures Apply(NOTHING, v) == v
  {
  }

  lemma ThenApplies(m: Net, e: El, v: word)
    requires e.IsRegular() ==> !IsShift(e.valueKind)
    ensures Apply(Then(m, e), v) == After(Apply(m, v), e)
  {
    if e.IsRegular() {
      ComposeApplies(m, Kept(e.valueKind, e.value), Flipped(e.valueKind, e.value), v);
      Bitwise(e.valueKind, e.value, Apply(m, v));
    }
  }

  lemma {:induction false} NetApplies(s: seq<El>, m: Net, v: word)
    requires NoShifts(s)
    ensures Apply(End(Then, m, s), v) == Running(s, Apply(m, v))
    decreases s
  {
    if s != [] {
      ThenApplies(m, s[0], v);
      NetApplies(s[1..], Then(m, s[0]), v);
    }
  }

  /** The net effect is the run. */
  lemma NetIsRunning(s: seq<El>, v: word)
    requires NoShifts(s)
    ensures Running(s, v) == Apply(NetOf(s), v)
  {
    NothingApplies(v);
    NetApplies(s, NOTHING, v);
  }

  lemma AtZero(m: Net)
    ensures Apply(m, 0) == m.flipped
  {
  }

  lemma KeptFrom(a: word, c: word, b: word)
    requires Affine(a, b, 0xFFFF_FFFF) == Affine(c, b, 0xFFFF_FFFF)
    ensures a == c
  {
  }

  /** Different net effects differ on all zeros or on all ones. */
  lemma NetsDiffer(m: Net, n: Net)
    requires Apply(m, 0) == Apply(n, 0) && Apply(m, 0xFFFF_FFFF) == Apply(n, 0xFFFF_FFFF)
    ensures m == n
  {
    AtZero(m);
    AtZero(n);
    KeptFrom(m.kept, n.kept, m.flipped);
  }

  /** The sequence up to its last clock. */
  ghost function Trimmed(s: seq<El>): seq<El>
  {
    if s == [] then []
    else if s[|s| - 1].IsRegular() && s[|s| - 1].count > 0 then s
    else Trimmed(s[..|s| - 1])
  }

  lemma WaveformLast(s: seq<El>, v: word)
    requires s != []
    ensures var n := |s| - 1; Waveform(s, v) == Waveform(s[..n], v) + Clocks(Running(s[..n], v), s[n])
    ensures Running(s, v) == After(Running(s[..|s| - 1], v), s[|s| - 1])
  {
    var n := |s| - 1;
    assert s[..n] + [s[n]] == s;
    WaveformConcat(s[..n], [s[n]], v);
    ScanOne(After, Clocks, Running(s[..n], v), s[n]);
  }

  lemma {:induction false} TrimmedIsLastOutput(s: seq<El>, v: word)
    ensures LastOr(Waveform(s, v), v) == Running(Trimmed(s), v)
  {
    if s != [] {
      var n := |s| - 1;
      WaveformLast(s, v);
      if s[n].IsRegular() && s[n].count > 0 {
        LastClock(Waveform(s[..n], v), Running(s, v), s[n].count, v);
      } else {
        TrimmedIsLastOutput(s[..n], v);
        assert Waveform(s[..n], v) + [] == Waveform(s[..n], v);
      }
    }
  }

  lemma LastClock(w: seq<word>, value: word, n: nat, v: word)
    requires n > 0
    ensures LastOr(w + Repeat(value, n), v) == value
  {
  }

  lemma {:induction false} TrimmedNoShifts(s: seq<El>)
    requires NoShifts(s)
    ensures NoShifts(Trimmed(s))
  {
    if s != [] { TrimmedNoShifts(s[..|s| - 1]); }
  }

  lemma {:induction false} DropZeroNoShifts(s: seq<El>)
    requires NoShifts(s)
    ensures NoShifts(DropZero(s))
  {
    if s != [] { DropZeroNoShifts(s[1..]); }
  }

  // ----- the inferred output and the last one

  ghost predicate Agree(s: seq<El>, v: word) { FinalRunning(s, v) == LastOr(Waveform(s, v), v) }

  lemma AgreeIsSameRun(s: seq<El>, v: word)
    ensures Agree(s, v) <==> Running(DropZero(s), v) == Running(Trimmed(s), v)
  {
    TrimmedIsLastOutput(s, v);
  }

  lemma NetsAgree(s: seq<El>, v: word, m: Net, n: Net)
    requires NoShifts(s) && m == NetOf(DropZero(s)) && n == NetOf(Trimmed(s))
    ensures Agree(s, v) <==> Apply(m, v) == Apply(n, v)
  {
    DropZeroNoShifts(s);
    TrimmedNoShifts(s);
    NetIsRunning(DropZero(s), v);
    NetIsRunning(Trimmed(s), v);
    AgreeIsSameRun(s, v);
  }

  lemma AgreeingNets(s: seq<El>, m: Net, n: Net)
    requires NoShifts(s) && m == NetOf(DropZero(s)) && n == NetOf(Trimmed(s))
    requires Agree(s, 0) && Agree(s, 0xFFFF_FFFF)
    ensures m == n
  {
    NetsAgree(s, 0, m, n);
    NetsAgree(s, 0xFFFF_FFFF, m, n);
    NetsDiffer(m, n);
  }

  lemma NetsIff(s: seq<El>)
    requires NoShifts(s)
    ensures (forall v :: Agree(s, v)) <==> NetOf(DropZero(s)) == NetOf(Trimmed(s))
  {
    if NetOf(DropZero(s)) == NetOf(Trimmed(s)) {
      forall v ensures Agree(s, v) { NetsAgree(s, v, NetOf(DropZero(s)), NetOf(Trimmed(s))); }
    } else if Agree(s, 0) && Agree(s, 0xFFFF_FFFF) {
      AgreeingNets(s, NetOf(DropZero(s)), NetOf(Trimmed(s)));
    }
  }

  lemma UnitsAgree(s: seq<El>)
    ensures (forall v :: Agree(s, v)) <==> Agree(s, 0) && forall j: word :: j < 32 ==> Agree(s, Unit(j))
  {
    forall v ensures Agree(s, v) <==> Running(DropZero(s), v) == Running(Trimmed(s), v) { AgreeIsSameRun(s, v); }
    SameEffectIff(DropZero(s), Trimmed(s));
  }

  /**
    The inferred final output is the last output, for every initial output, exactly if it is for
    all zeros and the 32 single bits; and, in a sequence without shifts, exactly if the sequence
    without its zero counts has the net effect of the sequence up to its last clock.
  */
  lemma InferredIff(s: seq<El>)
    ensures (forall v :: Agree(s, v)) <==> Agree(s, 0) && forall j: word :: j < 32 ==> Agree(s, Unit(j))
    ensures NoShifts(s) ==> ((forall v :: Agree(s, v)) <==> NetOf(DropZero(s)) == NetOf(Trimmed(s)))
  {
    UnitsAgree(s);
    if NoShifts(s) { NetsIff(s); }
  }
}
