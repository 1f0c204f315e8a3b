/**
  Sequences of elements: what they mean as an output stream, and the normalisation that turns
  any update operators into plain loads and joins equal neighbours.
*/
module PulseSequence {
  import opened Bits
  import opened Wrappers
  import opened Elements
  import opened Updates
  import opened Scan

  function Repeat(w: word, n: nat): seq<word> { seq(n, _ => w) }

  /** The output after one element. */
  function After(v: word, e: El): word { if e.IsRegular() then e.Updated(v) else v }

  /** Not a regular element of count zero. */
  predicate Emits(e: El) { !(e.IsRegular() && e.count == 0) }

  /** The clocks one element lasts. */
  function Clocks(v: word, e: El): seq<word> { if e.IsRegular() then Repeat(e.Updated(v), e.count) else [] }

  /**
    The output per clock, starting from output `v`. Elements that are not regular add no clocks;
    what replay, retrigger, PRNG and stored elements make the hardware do is not part of this model.
  */
  ghost function Waveform(s: seq<El>, v: word): seq<word> { Outputs(After, Clocks, v, s) }

  /** The running value after the whole sequence. */
  ghost function Running(s: seq<El>, v: word): word { End(After, v, s) }

  /** `length`: clocks of the regular elements. */
  ghost function Length(s: seq<El>): nat
  {
    if s == [] then 0 else (if s[0].IsRegular() then s[0].count else 0) + Length(s[1..])
  }

  lemma {:induction false} WaveformLength(s: seq<El>, v: word)
    ensures |Waveform(s, v)| == Length(s)
  {
    if s != [] { WaveformLength(s[1..], After(v, s[0])); }
  }

  lemma WaveformConcat(s: seq<El>, t: seq<El>, v: word)
    ensures Waveform(s + t, v) == Waveform(s, v) + Waveform(t, Running(s, v))
    ensures Running(s + t, v) == Running(t, Running(s, v))
  {
    ScanConcat(After, Clocks, v, s, t);
    EndConcat(After, v, s, t);
  }

  // ----- convert_to_BitLoad

  function Normal(e: El, previous: word): (r: El)
    ensures e.IsRegular() ==> r.IsRegular() && r.valueKind == BitLoad
    ensures e.IsRegular() ==> r.count == e.count && r.value == e.Updated(previous)
    ensures !e.IsRegular() ==> r == e
  {
    if e.IsRegular() then
      NormalisedElement(e, previous);
      e.AsBitLoadAfter(previous).value
    else e
  }

  ghost function BitLoads(s: seq<El>, v: word): seq<El>
  {
    if s == [] then [] else [Normal(s[0], v)] + BitLoads(s[1..], After(v, s[0]))
  }

  lemma {:induction false} BitLoadsAppend(s: seq<El>, e: El, v: word)
    ensures BitLoads(s + [e], v) == BitLoads(s, v) + [Normal(e, Running(s, v))]
  {
    if s == [] {
      assert s + [e] == [e];
    } else {
      assert (s + [e])[1..] == s[1..] + [e];
      BitLoadsAppend(s[1..], e, After(v, s[0]));
    }
  }

  method ConvertToBitLoad(s: seq<El>, initial: word) returns (r: seq<El>)
    ensures r == BitLoads(s, initial)
  {
    r := [];
    var previous := initial;
    assert s[..0] == [];
    for i := 0 to |s|
      invariant r == BitLoads(s[..i], initial) && previous == Running(s[..i], initial)
    {
      var e := Normal(s[i], previous);
      assert s[..i + 1] == s[..i] + [s[i]];
      BitLoadsAppend(s[..i], s[i], initial);
      WaveformConcat(s[..i], [s[i]], initial);
      ScanOne(After, Clocks, previous, s[i]);
      r := r + [e];
      if s[i].IsRegular() { previous := e.value; }
    }
    assert s[..|s|] == s;
  }

  predicate AllLoads(s: seq<El>)
  {
    forall i :: 0 <= i < |s| && s[i].IsRegular() ==> s[i].valueKind == BitLoad
  }

  /** Normalising keeps the stream, and the result no longer depends on the previous output. */
  lemma {:induction false} BitLoadsKeepWaveform(s: seq<El>, v: word, v': word)
    ensures Waveform(BitLoads(s, v), v') == Waveform(s, v)
    ensures AllLoads(BitLoads(s, v)) && |BitLoads(s, v)| == |s|
    ensures Length(BitLoads(s, v)) == Length(s)
    decreases s
  {
    if s != [] {
      var w := After(v, s[0]);
      var w' := if s[0].IsRegular() then w else v';
      BitLoadsKeepWaveform(s[1..], w, w');
      assert BitLoads(s, v)[1..] == BitLoads(s[1..], w);
    }
  }

  // ----- merge

  predicate Mergeable(x: El, y: El)
  {
    x.IsRegular() && y.IsRegular() && x.control == y.control && x.value == y.value
  }

  function CheckedCountSum(x: u32, y: u32): (r: Result<u32>)
  {
    if x + y > U32_MAX then Err else Ok(x + y)
  }

  /** What is left of x followed by s once equal neighbours are joined from the left. */
  ghost function MergeInto(x: El, s: seq<El>): Result<seq<El>>
    decreases s
  {
    if s == [] then Ok([x])
    else if Mergeable(x, s[0]) then
      var sum := CheckedCountSum(x.count, s[0].count);
      if sum.Err? then Err else MergeInto(x.WithCount(sum.value), s[1..])
    else
      var rest := MergeInto(s[0], s[1..]);
      if rest.Err? then Err else Ok([x] + rest.value)
  }

  ghost function Merged(s: seq<El>): Result<seq<El>>
  {
    if s == [] then Ok([]) else MergeInto(s[0], s[1..])
  }

  ghost function Prefixed(done: seq<El>, r: Result<seq<El>>): Result<seq<El>>
  {
    if r.Err? then Err else Ok(done + r.value)
  }

  /** `merge`, as the in-place erase-and-insert loop of `merge_adjacent`. */
  method Merge(s: seq<El>) returns (r: Result<seq<El>>)
    ensures r == Merged(s)
  {
    var dq := s;
    if |dq| < 2 {
      MergeOfMerged(s);
      return Ok(dq);
    }
    var i := 0;
    assert dq[..0] + [dq[0]] + dq[1..] == dq;
    assert Merged(s) == Prefixed(dq[..0], MergeInto(dq[0], dq[1..])) by {
      var r := MergeInto(dq[0], dq[1..]);
      if r.Ok? { assert dq[..0] + r.value == r.value; }
    }
    while i + 1 < |dq|
      invariant 0 <= i < |dq|
      invariant Merged(s) == Prefixed(dq[..i], MergeInto(dq[i], dq[i + 1..]))
      decreases |dq| - i
    {
      var x, y := dq[i], dq[i + 1];
      if Mergeable(x, y) {
        var sum := CheckedCountSum(x.count, y.count);
        if sum.Err? { return Err; }
        var dq' := dq[..i] + [x.WithCount(sum.value)] + dq[i + 2..];
        assert dq'[..i] == dq[..i] && dq'[i + 1..] == dq[i + 2..] == dq[i + 1..][1..];
        dq := dq';
      } else {
        StepOver(dq, i);
        i := i + 1;
      }
    }
    assert dq[i + 1..] == [] && dq[..i] + [dq[i]] == dq;
    return Ok(dq);
  }

  lemma StepOver(dq: seq<El>, i: nat)
    requires i + 1 < |dq| && !Mergeable(dq[i], dq[i + 1])
    ensures Prefixed(dq[..i], MergeInto(dq[i], dq[i + 1..])) == Prefixed(dq[..i + 1], MergeInto(dq[i + 1], dq[i + 2..]))
  {
    assert dq[i + 1..][1..] == dq[i + 2..];
    var rest := MergeInto(dq[i + 1], dq[i + 2..]);
    if rest.Ok? {
      assert dq[..i] + ([dq[i]] + rest.value) == dq[..i + 1] + rest.value;
    }
  }

  predicate FullyMerged(s: seq<El>)
  {
    forall i :: 0 <= i < |s| - 1 ==>
      !(s[i].IsRegular() && s[i + 1].IsRegular() && s[i].control == s[i + 1].control && s[i].value == s[i + 1].value)
  }

  /** Nothing joinable is left, the first element keeps its control and value, and no clock is lost. */
  lemma {:induction false} MergeIntoShape(x: El, s: seq<El>)
    requires MergeInto(x, s).Ok?
    ensures var r := MergeInto(x, s).value;
      r != [] && FullyMerged(r) && Length(r) == Length([x] + s)
      && r[0].control == x.control && r[0].value == x.value
      && r[0].valueKind == x.valueKind && r[0].counterKind == x.counterKind
    decreases s
  {
    assert ([x] + s)[1..] == s;
    if s == [] {
    } else if Mergeable(x, s[0]) {
      var x' := x.WithCount(x.count + s[0].count);
      MergeIntoShape(x', s[1..]);
      assert ([x'] + s[1..])[1..] == s[1..];
    } else {
      MergeIntoShape(s[0], s[1..]);
      var rest := MergeInto(s[0], s[1..]).value;
      assert [s[0]] + s[1..] == s;
      assert ([x] + rest)[1..] == rest;
    }
  }

  lemma MergeShape(s: seq<El>)
    requires Merged(s).Ok?
    ensures FullyMerged(Merged(s).value) && Length(Merged(s).value) == Length(s)
  {
    if s != [] {
      MergeIntoShape(s[0], s[1..]);
      assert [s[0]] + s[1..] == s;
    }
  }

  lemma {:induction false} MergeOfMerged(s: seq<El>)
    requires FullyMerged(s)
    ensures Merged(s) == Ok(s)
  {
    if |s| == 1 {
      assert [s[0]] == s && s[1..] == [];
    } else if |s| > 1 {
      forall i | 0 <= i < |s[1..]| - 1
        ensures !Mergeable(s[1..][i], s[1..][i + 1])
      {
        assert !Mergeable(s[i + 1], s[i + 2]);
      }
      assert !Mergeable(s[0], s[1]);
      MergeOfMerged(s[1..]);
      assert [s[0]] + s[1..] == s;
    }
  }

  /** Merging twice is merging once. */
  lemma MergeIsIdempotent(s: seq<El>)
    requires Merged(s).Ok?
    ensures Merged(Merged(s).value) == Merged(s)
  {
    MergeShape(s);
    MergeOfMerged(Merged(s).value);
  }

  /** Clocks of the run of mergeable neighbours at the front. */
  ghost function FrontRun(s: seq<El>): nat
  {
    if s == [] then 0
    else s[0].count + if |s| > 1 && Mergeable(s[0], s[1]) then FrontRun(s[1..]) else 0
  }

  /** Some run of mergeable neighbours is longer than a 32-bit count can say. */
  ghost predicate HasLongRun(s: seq<El>)
  {
    exists i :: 0 <= i < |s| && FrontRun(s[i..]) > U32_MAX
  }

  lemma LongRunStep(x: El, s: seq<El>)
    ensures HasLongRun([x] + s) <==> FrontRun([x] + s) > U32_MAX || HasLongRun(s)
  {
    var t := [x] + s;
    forall i | 0 < i < |t| ensures t[i..] == s[i - 1..] { }
    assert t[0..] == t;
    if i :| 0 <= i < |s| && FrontRun(s[i..]) > U32_MAX {
      assert t[i + 1..] == s[i..];
    }
  }

  lemma JoinedRun(x: El, s: seq<El>)
    requires s != [] && Mergeable(x, s[0]) && x.count + s[0].count <= U32_MAX
    ensures FrontRun([x.WithCount(x.count + s[0].count)] + s[1..]) == FrontRun([x] + s) == x.count + FrontRun(s)
  {
    var t := [x.WithCount(x.count + s[0].count)] + s[1..];
    assert t[1..] == s[1..] && ([x] + s)[1..] == s;
    assert |t| > 1 ==> t[1] == s[1];
  }

  lemma JoinedHasLongRun(x: El, s: seq<El>)
    requires s != [] && Mergeable(x, s[0]) && x.count + s[0].count <= U32_MAX
    ensures HasLongRun([x.WithCount(x.count + s[0].count)] + s[1..]) <==> HasLongRun([x] + s)
  {
    var x' := x.WithCount(x.count + s[0].count);
    JoinedRun(x, s);
    LongRunStep(x, s);
    LongRunStep(x', s[1..]);
    LongRunStep(s[0], s[1..]);
    assert [s[0]] + s[1..] == s;
  }

  lemma OverflowIsLongRun(x: El, s: seq<El>)
    requires s != [] && Mergeable(x, s[0]) && x.count + s[0].count > U32_MAX
    ensures HasLongRun([x] + s)
  {
    LongRunStep(x, s);
    assert ([x] + s)[1..] == s;
  }

  lemma SeparateHasLongRun(x: El, s: seq<El>)
    requires s == [] || !Mergeable(x, s[0])
    ensures HasLongRun([x] + s) <==> HasLongRun(s)
  {
    LongRunStep(x, s);
  }

  lemma {:induction false} MergeIntoFailure(x: El, s: seq<El>)
    ensures MergeInto(x, s).Err? <==> HasLongRun([x] + s)
    decreases s
  {
    if s == [] || !Mergeable(x, s[0]) {
      SeparateHasLongRun(x, s);
      if s != [] {
        MergeIntoFailure(s[0], s[1..]);
        assert [s[0]] + s[1..] == s;
      }
    } else if x.count + s[0].count <= U32_MAX {
      MergeIntoFailure(x.WithCount(x.count + s[0].count), s[1..]);
      JoinedHasLongRun(x, s);
    } else {
      OverflowIsLongRun(x, s);
    }
  }

  /** `merge` throws exactly on a run that is too long. */
  lemma MergeFailure(s: seq<El>)
    ensures Merged(s).Err? <==> HasLongRun(s)
  {
    if s != [] {
      MergeIntoFailure(s[0], s[1..]);
      assert [s[0]] + s[1..] == s;
    }
  }

  ghost predicate AllRegular(s: seq<El>) { forall i :: 0 <= i < |s| ==> s[i].IsRegular() }

  lemma {:induction false} FrontRunBound(s: seq<El>)
    requires AllRegular(s)
    ensures FrontRun(s) <= Length(s)
  {
    if |s| > 0 { FrontRunBound(s[1..]); }
  }

  lemma {:induction false} SuffixLength(s: seq<El>, i: nat)
    requires i <= |s|
    ensures Length(s[i..]) <= Length(s)
  {
    if i > 0 {
      SuffixLength(s[1..], i - 1);
      assert s[1..][i - 1..] == s[i..];
    } else {
      assert s[0..] == s;
    }
  }

  /** A sequence of at most 2^32-1 clocks has no run too long to merge. */
  lemma ShortHasNoLongRun(s: seq<El>)
    requires AllRegular(s) && Length(s) <= U32_MAX
    ensures !HasLongRun(s)
  {
    forall i | 0 <= i < |s| ensures FrontRun(s[i..]) <= U32_MAX {
      FrontRunBound(s[i..]);
      SuffixLength(s, i);
    }
  }

  // ----- when joining neighbours keeps the stream

  /**
    Joining two neighbours keeps the stream for every previous output exactly when their update
    is idempotent, so `merge` alone is not meaning-preserving.
  */
  lemma JoinKeepsWaveformIff(x: El, y: El)
    requires Coherent(x) && Coherent(y) && Mergeable(x, y) && y.count > 0 && x.count + y.count <= U32_MAX
    ensures (forall v :: Waveform([x.WithCount(x.count + y.count)], v) == Waveform([x, y], v))
      <==> Idempotent(x.valueKind, x.value)
  {
    SameKind(x, y);
    if Idempotent(x.valueKind, x.value) {
      forall v ensures Waveform([x.WithCount(x.count + y.count)], v) == Waveform([x, y], v) {
        JoinedActsAsBoth(x, y, v);
        JoinPair(x, y, x.WithCount(x.count + y.count), v);
      }
    } else {
      var v := TwiceTells(x.valueKind, x.value);
      JoinChanges(x, y, v);
    }
  }

  lemma JoinChanges(x: El, y: El, v: word)
    requires x.IsRegular() && y.IsRegular() && y.count > 0 && x.count + y.count <= U32_MAX
    requires y.Updated(x.Updated(v)) != x.Updated(v)
    ensures Waveform([x.WithCount(x.count + y.count)], v) != Waveform([x, y], v)
  {
    OneElement(x.WithCount(x.count + y.count), v);
    TwoElements(x, y, v);
    RepeatDiffers(x.Updated(v), y.Updated(x.Updated(v)), x.count, y.count);
  }

  lemma SameKind(x: El, y: El)
    requires Coherent(x) && Coherent(y) && Mergeable(x, y)
    ensures x.valueKind == y.valueKind
    ensures forall v :: x.Updated(v) == y.Updated(v)
  {
  }

  lemma OneElement(x: El, v: word)
    requires x.IsRegular()
    ensures Waveform([x], v) == Repeat(x.Updated(v), x.count) && Running([x], v) == x.Updated(v)
  {
    ScanOne(After, Clocks, v, x);
  }

  lemma TwoElements(x: El, y: El, v: word)
    requires x.IsRegular() && y.IsRegular()
    ensures Waveform([x, y], v) == Repeat(x.Updated(v), x.count) + Repeat(y.Updated(x.Updated(v)), y.count)
    ensures Running([x, y], v) == y.Updated(x.Updated(v))
  {
    OneElement(x, v);
    OneElement(y, x.Updated(v));
    WaveformConcat([x], [y], v);
    assert [x] + [y] == [x, y];
  }

  lemma RepeatSum(w: word, m: nat, n: nat)
    ensures Repeat(w, m) + Repeat(w, n) == Repeat(w, m + n)
  {
  }

  lemma RepeatDiffers(w: word, w': word, m: nat, n: nat)
    requires w != w' && n > 0
    ensures Repeat(w, m + n) != Repeat(w, m) + Repeat(w', n)
  {
    assert Repeat(w, m + n)[m] != (Repeat(w, m) + Repeat(w', n))[m];
  }

  /** Joining these neighbours does no harm. */
  ghost predicate SafePair(x: El, y: El)
  {
    Mergeable(x, y) ==> Coherent(x) && Coherent(y) && Idempotent(x.valueKind, x.value)
  }

  /** Wherever two neighbours will be joined, their update is idempotent; other elements may be anything. */
  ghost predicate SafeToMerge(s: seq<El>) { forall i :: 0 <= i < |s| - 1 ==> SafePair(s[i], s[i + 1]) }

  lemma SafeRest(x: El, s: seq<El>)
    requires SafeToMerge([x] + s) && s != []
    ensures SafePair(x, s[0]) && SafeToMerge(s) && [s[0]] + s[1..] == s && ([x] + s)[1..] == s
  {
    var t := [x] + s;
    assert t[0] == x && t[1] == s[0];
    forall i | 0 <= i < |s| - 1 ensures SafePair(s[i], s[i + 1]) {
      assert SafePair(t[i + 1], t[i + 2]) && t[i + 1] == s[i] && t[i + 2] == s[i + 1];
    }
  }

  lemma SafeJoin(x: El, s: seq<El>, n: u32)
    requires s != [] && Mergeable(x, s[0]) && Coherent(x) && SafeToMerge(s)
    ensures SafeToMerge([x.WithCount(n)] + s[1..])
  {
    var t := [x.WithCount(n)] + s[1..];
    forall i | 0 <= i < |t| - 1 ensures SafePair(t[i], t[i + 1]) {
      assert SafePair(s[i], s[i + 1]) && t[i + 1] == s[i + 1];
      if i == 0 && Mergeable(t[0], t[1]) {
        assert Mergeable(s[0], s[1]);
        SameKind(x, s[0]);
      }
    }
  }

  /** The joined element acts as both. */
  ghost predicate ActsAsBoth(x: El, y: El, z: El, v: word)
  {
    Clocks(v, z) == Clocks(v, x) + Clocks(After(v, x), y) && After(v, z) == After(After(v, x), y)
  }

  lemma WithCountActs(x: El, n: u32, v: word)
    requires x.IsRegular()
    ensures Clocks(v, x.WithCount(n)) == Repeat(x.Updated(v), n) && After(v, x.WithCount(n)) == x.Updated(v)
  {
  }

  lemma JoinedActs(x: El, y: El, v: word, w: word)
    requires x.IsRegular() && y.IsRegular() && x.count + y.count <= U32_MAX && w == x.Updated(v) && y.Updated(w) == w
    ensures ActsAsBoth(x, y, x.WithCount(x.count + y.count), v)
  {
    WithCountActs(x, x.count + y.count, v);
    RepeatSum(w, x.count, y.count);
  }

  lemma JoinedActsAsBoth(x: El, y: El, v: word)
    requires Coherent(x) && Coherent(y) && Mergeable(x, y) && x.count + y.count <= U32_MAX
    requires Idempotent(x.valueKind, x.value)
    ensures ActsAsBoth(x, y, x.WithCount(x.count + y.count), v)
  {
    SecondChangesNothing(x, y, v);
    JoinedActs(x, y, v, x.Updated(v));
  }

  lemma JoinPair(x: El, y: El, z: El, v: word)
    requires ActsAsBoth(x, y, z, v)
    ensures Waveform([z], v) == Waveform([x, y], v)
  {
    JoinStep(x, [y], z, v);
    assert [x] + [y] == [x, y] && [y][1..] == [] && [z] + [] == [z];
  }

  lemma JoinStep(x: El, s: seq<El>, z: El, v: word)
    requires s != [] && ActsAsBoth(x, s[0], z, v)
    ensures Waveform([z] + s[1..], v) == Waveform([x] + s, v)
  {
    JoinFirst(After, Clocks, v, x, s[0], z, s[1..]);
    assert [s[0]] + s[1..] == s;
  }

  lemma SafeJoinStep(x: El, s: seq<El>, v: word)
    requires s != [] && Mergeable(x, s[0]) && SafePair(x, s[0]) && x.count + s[0].count <= U32_MAX
    ensures Waveform([x.WithCount(x.count + s[0].count)] + s[1..], v) == Waveform([x] + s, v)
  {
    JoinedActsAsBoth(x, s[0], v);
    JoinStep(x, s, x.WithCount(x.count + s[0].count), v);
  }

  lemma {:induction false} MergeIntoKeepsWaveform(x: El, s: seq<El>, v: word)
    requires MergeInto(x, s).Ok? && SafeToMerge([x] + s)
    ensures Waveform(MergeInto(x, s).value, v) == Waveform([x] + s, v)
    decreases s
  {
    if s == [] {
      assert [x] + s == [x];
    } else {
      SafeRest(x, s);
      var rest := s[1..];
      if Mergeable(x, s[0]) {
        SafeJoin(x, s, x.count + s[0].count);
        SafeJoinStep(x, s, v);
        MergeIntoKeepsWaveform(x.WithCount(x.count + s[0].count), rest, v);
      } else {
        MergeIntoKeepsWaveform(s[0], rest, After(v, x));
        FirstAndRest(x, MergeInto(s[0], rest).value);
        FirstAndRest(x, s);
      }
    }
  }

  lemma SecondChangesNothing(x: El, y: El, v: word)
    requires Coherent(x) && Coherent(y) && Mergeable(x, y) && Idempotent(x.valueKind, x.value)
    ensures y.Updated(x.Updated(v)) == x.Updated(v)
  {
    SameKind(x, y);
    OnceIsEnough(x.valueKind, x.value, v);
  }

  /** Merging keeps the stream if every update that is joined with a neighbour is idempotent. */
  lemma MergeKeepsWaveform(s: seq<El>, v: word)
    requires Merged(s).Ok? && SafeToMerge(s)
    ensures Waveform(Merged(s).value, v) == Waveform(s, v)
  {
    if s != [] {
      assert [s[0]] + s[1..] == s;
      MergeIntoKeepsWaveform(s[0], s[1..], v);
    }
  }

  // ----- dropping elements of no length

  /** Leaving out a zero-count update keeps the stream for every previous output exactly if the next absorbs it. */
  lemma DropKeepsWaveformIff(x: El, y: El)
    requires x.IsRegular() && x.count == 0 && y.IsRegular() && y.count > 0
    ensures (forall v :: Waveform([x, y], v) == Waveform([y], v))
      <==> Absorbs(x.valueKind, x.value, y.valueKind, y.value)
  {
    if Absorbs(x.valueKind, x.value, y.valueKind, y.value) {
      forall v ensures Waveform([x, y], v) == Waveform([y], v) {
        Absorbed(x.valueKind, x.value, y.valueKind, y.value, v);
        DropOutputs(x, y, v);
      }
    } else {
      var v := NotAbsorbed(x.valueKind, x.value, y.valueKind, y.value);
      DropOutputs(x, y, v);
    }
  }

  lemma DropOutputs(x: El, y: El, v: word)
    requires x.IsRegular() && x.count == 0 && y.IsRegular() && y.count > 0
    ensures Waveform([x, y], v) == Waveform([y], v) <==> y.Updated(x.Updated(v)) == y.Updated(v)
  {
    TwoElements(x, y, v);
    OneElement(y, v);
    var a, b := y.Updated(x.Updated(v)), y.Updated(v);
    assert Repeat(x.Updated(v), 0) + Repeat(a, y.count) == Repeat(a, y.count);
    assert Repeat(a, y.count)[0] == a && Repeat(b, y.count)[0] == b;
  }
}
