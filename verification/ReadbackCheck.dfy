/** Comparison of the elements read back from the hardware with a reference sequence. */
module ReadbackCheck {
  import opened Bits
  import opened Wrappers
  import opened Elements
  import opened Scan
  import opened FifoFields

  /** Elements that produce pulses; everything else in a reference is skipped. */
  predicate IsPulse(e: El) { e.IsRegular() && e.count != 0 }

  ghost function Pulses(s: seq<El>): seq<El> { Filter(IsPulse, s) }

  lemma PulsesAppend(s: seq<El>, i: nat)
    requires i < |s|
    ensures Pulses(s[..i + 1]) == Pulses(s[..i]) + if IsPulse(s[i]) then [s[i]] else []
  {
    assert s[..i + 1] == s[..i] + [s[i]];
    FilterConcat(IsPulse, s[..i], [s[i]]);
    FilterOne(IsPulse, s[i]);
  }

  lemma {:induction false} PulsesPrefix(s: seq<El>, i: nat, j: nat)
    requires i <= j <= |s|
    ensures Pulses(s[..i]) <= Pulses(s[..j])
    decreases j
  {
    if i < j {
      PulsesPrefix(s, i, j - 1);
      PulsesAppend(s, j - 1);
    }
  }

  /** The only final element, if the sequence is not empty, is the last. */
  ghost predicate EndsInItsFinal(s: seq<El>)
  {
    s != [] && s[|s| - 1].IsFinal() && forall i :: 0 <= i < |s| - 1 ==> !s[i].IsFinal()
  }

  lemma FinalIsNoPulse(e: El)
    requires e.IsFinal()
    ensures !IsPulse(e)
  {
  }

  /** Removes elements up to and including the next pulse; `i` counts those removed. */
  method NextPulse(reference: seq<El>, i0: nat) returns (found: bool, i: nat)
    requires i0 <= |reference|
    ensures !found ==> Pulses(reference) == Pulses(reference[..i0])
    ensures found ==> i0 < i <= |reference| && IsPulse(reference[i - 1])
    ensures found ==> Pulses(reference[..i]) == Pulses(reference[..i0]) + [reference[i - 1]]
  {
    i := i0;
    while i < |reference|
      invariant i0 <= i <= |reference| && Pulses(reference[..i]) == Pulses(reference[..i0])
    {
      PulsesAppend(reference, i);
      var e := reference[i];
      i := i + 1;
      if IsPulse(e) { return true, i; }
    }
    assert reference[..i] == reference;
    found := false;
  }

  /** Where a run stands: n elements read, against the n pulses among the `removed` reference elements. */
  ghost predicate InStep(reference: seq<El>, data: seq<El>, removed: nat, n: nat, errors: nat)
  {
    && removed <= |reference| && n <= |data| && |Pulses(reference[..removed])| == n
    && (errors == 0 <==> SameSequence(data[..n], Pulses(reference[..removed])))
    && (removed == 0 || IsPulse(reference[removed - 1]))
  }

  lemma SameOneMore(xs: seq<El>, x: El, ys: seq<El>, y: El)
    requires |xs| == |ys|
    ensures SameSequence(xs + [x], ys + [y]) <==> SameSequence(xs, ys) && x.Same(y)
  {
    var a, b := xs + [x], ys + [y];
    assert forall i :: 0 <= i < |xs| ==> a[i] == xs[i] && b[i] == ys[i];
    assert a[|xs|] == x && b[|xs|] == y;
  }

  lemma OneMorePulse(reference: seq<El>, data: seq<El>, removed: nat, removed': nat, n: nat, errors: nat)
    requires InStep(reference, data, removed, n, errors) && n < |data| && removed < removed' <= |reference|
    requires IsPulse(reference[removed' - 1])
    requires Pulses(reference[..removed']) == Pulses(reference[..removed]) + [reference[removed' - 1]]
    ensures var same := data[n].Same(reference[removed' - 1]);
      InStep(reference, data, removed', n + 1, if same then errors else errors + 1)
  {
    assert data[..n + 1] == data[..n] + [data[n]];
    SameOneMore(data[..n], data[n], Pulses(reference[..removed]), reference[removed' - 1]);
  }

  lemma StoppedAtFinal(reference: seq<El>, removed: nat)
    requires EndsInItsFinal(reference) && removed < |reference| && reference[removed].IsFinal()
    ensures removed == |reference| - 1 && Pulses(reference[..removed]) == Pulses(reference)
  {
    FinalIsNoPulse(reference[removed]);
    PulsesAppend(reference, removed);
    assert reference[..removed + 1] == reference;
  }

  // ----- the answers of `filled`

  ghost function Trues(polls: seq<bool>): nat
  {
    if polls == [] then 0 else Trues(polls[..|polls| - 1]) + if polls[|polls| - 1] then 1 else 0
  }

  lemma TruesStep(polls: seq<bool>, p: nat)
    requires p < |polls|
    ensures Trues(polls[..p + 1]) == Trues(polls[..p]) + if polls[p] then 1 else 0
  {
    assert polls[..p + 1][..p] == polls[..p];
  }

  lemma {:induction false} TruesGrow(polls: seq<bool>, p: nat, q: nat)
    requires p <= q <= |polls|
    ensures Trues(polls[..p]) <= Trues(polls[..q])
    decreases q
  {
    if p < q {
      TruesGrow(polls, p, q - 1);
      TruesStep(polls, q - 1);
    }
  }

  /** After exactly n true answers there is a false one. */
  ghost predicate Settles(polls: seq<bool>, n: nat)
  {
    exists p :: 0 <= p < |polls| && !polls[p] && Trues(polls[..p]) == n
  }

  /** None of the first p answers is such a one. */
  ghost predicate Unsettled(polls: seq<bool>, p: nat, n: nat)
    requires p <= |polls|
  {
    forall q :: 0 <= q < p && !polls[q] ==> Trues(polls[..q]) != n
  }

  lemma NeverSettles(polls: seq<bool>, p: nat, n: nat)
    requires p <= |polls| && Unsettled(polls, p, n) && (p == |polls| || Trues(polls[..p]) > n)
    ensures !Settles(polls, n)
  {
    forall q | 0 <= q < |polls| && !polls[q] ensures Trues(polls[..q]) != n {
      if p <= q { TruesGrow(polls, p, q); }
    }
  }

  // ----- the check

  /** Nothing stands between the last pulse and the final element. */
  ghost predicate TightEnd(reference: seq<El>)
    requires reference != []
  {
    |reference| == 1 || IsPulse(reference[|reference| - 2])
  }

  /**
    What it takes to pass: the final element follows the last pulse directly, the elements delivered
    begin with the reference's pulses, and the FIFO is seen empty right after that many elements.
  */
  ghost predicate Passes(reference: seq<El>, polls: seq<bool>, data: seq<El>)
    requires reference != []
  {
    var n := |Pulses(reference)|;
    TightEnd(reference) && n <= |data| && SameSequence(data[..n], Pulses(reference)) && Settles(polls, n)
  }

  /** After the last pulse of a tight reference only the final element is left. */
  lemma LastPulseRead(reference: seq<El>, removed: nat)
    requires EndsInItsFinal(reference) && TightEnd(reference) && removed <= |reference|
    requires removed == 0 || IsPulse(reference[removed - 1])
    requires |Pulses(reference[..removed])| == |Pulses(reference)|
    ensures removed == |reference| - 1
  {
    var m := |reference| - 1;
    FinalIsNoPulse(reference[m]);
    assert reference[..|reference|] == reference;
    PulsesPrefix(reference, m, |reference|);
    if removed < m {
      PulsesPrefix(reference, removed, m - 1);
      PulsesAppend(reference, m - 1);
    }
  }

  lemma PulsesLeft(reference: seq<El>, data: seq<El>, removed: nat, n: nat, errors: nat)
    requires InStep(reference, data, removed, n, errors)
    ensures n <= |Pulses(reference)|
  {
    PulsesPrefix(reference, removed, |reference|);
    assert reference[..|reference|] == reference;
  }

  /** The answers seen so far: as many true ones as elements read, and no point at which to stop yet. */
  ghost predicate Waiting(reference: seq<El>, polls: seq<bool>, p: nat, trues: nat)
    requires reference != []
  {
    && p <= |polls| && Trues(polls[..p]) == trues
    && (EndsInItsFinal(reference) && TightEnd(reference) ==> Unsettled(polls, p, |Pulses(reference)|))
  }

  lemma PollTrue(reference: seq<El>, polls: seq<bool>, p: nat, n: nat)
    requires reference != [] && Waiting(reference, polls, p, n) && p < |polls| && polls[p]
    ensures Waiting(reference, polls, p + 1, n + 1)
  {
    TruesStep(polls, p);
  }

  /** A false answer before the end: not all pulses have been read. */
  lemma PollFalse(reference: seq<El>, polls: seq<bool>, data: seq<El>, p: nat, removed: nat, n: nat, errors: nat)
    requires reference != [] && Waiting(reference, polls, p, n) && p < |polls| && !polls[p]
    requires InStep(reference, data, removed, n, errors) && removed < |reference| && !reference[removed].IsFinal()
    ensures Waiting(reference, polls, p + 1, n)
  {
    TruesStep(polls, p);
    if EndsInItsFinal(reference) && TightEnd(reference) && n == |Pulses(reference)| {
      LastPulseRead(reference, removed);
    }
  }

  /** The data or the reference is exhausted while the FIFO still claims to hold something. */
  lemma TooMany(reference: seq<El>, polls: seq<bool>, data: seq<El>, p: nat, n: nat)
    requires EndsInItsFinal(reference) && Waiting(reference, polls, p, n + 1) && n <= |Pulses(reference)|
    requires n == |data| || n == |Pulses(reference)|
    ensures !Passes(reference, polls, data)
  {
    if TightEnd(reference) && n == |Pulses(reference)| { NeverSettles(polls, p, n); }
  }

  lemma RanOut(reference: seq<El>, polls: seq<bool>, data: seq<El>, trues: nat)
    requires EndsInItsFinal(reference) && Waiting(reference, polls, |polls|, trues)
    ensures !Passes(reference, polls, data)
  {
    if TightEnd(reference) { NeverSettles(polls, |polls|, |Pulses(reference)|); }
  }

  /** Stopping at the final element: the outcome is decided by the errors alone. */
  lemma Stopped(reference: seq<El>, polls: seq<bool>, data: seq<El>, p: nat, removed: nat, n: nat, errors: nat)
    requires EndsInItsFinal(reference) && Waiting(reference, polls, p, n) && p < |polls| && !polls[p]
    requires InStep(reference, data, removed, n, errors) && removed < |reference| && reference[removed].IsFinal()
    ensures errors == 0 <==> Passes(reference, polls, data)
    ensures n == |Pulses(reference)|
  {
    StoppedAtFinal(reference, removed);
  }

  lemma NotExhausted(reference: seq<El>, data: seq<El>, removed: nat, n: nat, errors: nat)
    requires EndsInItsFinal(reference) && InStep(reference, data, removed, n, errors)
    ensures removed < |reference|
  {
    FinalIsNoPulse(reference[|reference| - 1]);
  }

  /** What the FIFO still holds: all but the first n elements. */
  ghost predicate Left(fifo: seq<u32>, data: seq<El>, n: nat) { n <= |data| && Recorded(fifo) == data[n..] }

  /** The next element, and failure when they have all been read. */
  method ReadNext(reader: FieldReader, ghost data: seq<El>, ghost n: nat) returns (e: Result<El>)
    requires Left(reader.fifo, data, n)
    modifies reader
    ensures e.Err? ==> n == |data|
    ensures e.Ok? ==> n < |data| && e.value == data[n] && Left(reader.fifo, data, n + 1)
  {
    ghost var before := reader.fifo;
    e := reader.ReadElement();
    if e.Ok? {
      assert data[n] == Recorded(before)[0];
      assert data[n + 1..] == Recorded(before)[1..];
    }
  }

  /** An element read is compared with the next pulse of the reference. */
  method Compare(reference: seq<El>, e: El, ghost data: seq<El>, removed: nat, ghost n: nat, errors: nat)
    returns (found: bool, removed': nat, errors': nat)
    requires InStep(reference, data, removed, n, errors) && n < |data| && e == data[n]
    ensures found ==> InStep(reference, data, removed', n + 1, errors')
    ensures !found ==> n == |Pulses(reference)|
  {
    errors' := errors;
    found, removed' := NextPulse(reference, removed);
    if !found { return; }
    OneMorePulse(reference, data, removed, removed', n, errors);
    if !e.Same(reference[removed' - 1]) { errors' := errors + 1; }
  }

  /**
    `readback::check`. `polls` are the successive answers of `filled`, and running out of them is
    a timeout; `words` is what the FIFO delivers. The reference deque is represented by the
    reference and the number of elements removed from its front. For a reference that ends in its
    only final element the result is true exactly if the run passes, and then the elements read are
    exactly the reference's pulses, however they were batched.
  */
  method Check(reference: seq<El>, polls: seq<bool>, words: seq<u32>) returns (ok: bool, n: nat)
    ensures EndsInItsFinal(reference) ==> (ok <==> Passes(reference, polls, Recorded(words)))
    ensures ok && EndsInItsFinal(reference) ==>
      n <= |Recorded(words)| && SameSequence(Recorded(words)[..n], Pulses(reference))
  {
    if reference == [] { return true, 0; }
    var reader := new FieldReader(words);
    ok, n := CheckAll(reader, reference, polls, Recorded(words));
  }

  /** The outer loop: waits for elements until the next reference element is the final one. */
  method CheckAll(reader: FieldReader, reference: seq<El>, polls: seq<bool>, ghost data: seq<El>)
    returns (ok: bool, n: nat)
    requires reference != [] && Recorded(reader.fifo) == data
    modifies reader
    ensures EndsInItsFinal(reference) ==> (ok <==> Passes(reference, polls, data))
    ensures ok && EndsInItsFinal(reference) ==> n <= |data| && SameSequence(data[..n], Pulses(reference))
  {
    n := 0;
    var removed: nat, errors: nat, p: nat := 0, 0, 0;
    ghost var final := EndsInItsFinal(reference);
    NothingRead(reference, polls, data);
    while removed < |reference|
      invariant InStep(reference, data, removed, n, errors) && Waiting(reference, polls, p, n)
      invariant Left(reader.fifo, data, n)
      decreases |polls| - p
    {
      var reading;
      ok, reading, p, removed, n, errors := Drain(reader, reference, polls, data, p, removed, n, errors);
      if !reading { return; }
      if removed == |reference| {
        if final { NotExhausted(reference, data, removed, n, errors); }
        return false, n;
      }
      if reference[removed].IsFinal() {
        if final { Stopped(reference, polls, data, p, removed, n, errors); }
        return errors == 0, n;
      }
      PollFalse(reference, polls, data, p, removed, n, errors);
      p := p + 1;
    }
    if final { NotExhausted(reference, data, removed, n, errors); }
    ok := errors == 0;
  }

  lemma NothingRead(reference: seq<El>, polls: seq<bool>, data: seq<El>)
    requires reference != []
    ensures InStep(reference, data, 0, 0, 0) && Waiting(reference, polls, 0, 0)
  {
    assert reference[..0] == [] && data[..0] == [] && polls[..0] == [];
  }

  /** The inner loop: reads while the FIFO holds something; `reading` is false if it gave up. */
  method Drain(reader: FieldReader, reference: seq<El>, polls: seq<bool>, ghost data: seq<El>,
               p0: nat, removed0: nat, n0: nat, errors0: nat)
    returns (ok: bool, reading: bool, p: nat, removed: nat, n: nat, errors: nat)
    requires reference != [] && Waiting(reference, polls, p0, n0)
    requires InStep(reference, data, removed0, n0, errors0) && Left(reader.fifo, data, n0)
    modifies reader
    ensures reading ==> InStep(reference, data, removed, n, errors) && Left(reader.fifo, data, n)
    ensures reading ==> Waiting(reference, polls, p, n) && p0 <= p < |polls| && !polls[p]
    ensures !reading ==> !ok && (EndsInItsFinal(reference) ==> !Passes(reference, polls, data))
  {
    ghost var final := EndsInItsFinal(reference);
    p, removed, n, errors := p0, removed0, n0, errors0;
    while p < |polls| && polls[p]
      invariant p0 <= p <= |polls| && InStep(reference, data, removed, n, errors) && Waiting(reference, polls, p, n)
      invariant Left(reader.fifo, data, n)
    {
      PollTrue(reference, polls, p, n);
      PulsesLeft(reference, data, removed, n, errors);
      p := p + 1;
      var e := ReadNext(reader, data, n);
      if e.Err? {
        if final { TooMany(reference, polls, data, p, n); }
        return false, false, p, removed, n, errors;
      }
      var found, removed', errors' := Compare(reference, e.value, data, removed, n, errors);
      if !found {
        if final { TooMany(reference, polls, data, p, n); }
        return false, false, p, removed, n, errors;
      }
      removed, n, errors := removed', n + 1, errors';
    }
    if p == |polls| {
      if final { RanOut(reference, polls, data, n); }
      return false, false, p, removed, n, errors;
    }
    return false, true, p, removed, n, errors;
  }

  // ----- which references can pass

  /** One record of three words for an element. */
  function Words(e: El): seq<u32> { [0, e.count, NumberOf(e.value)] }

  ghost function AllWords(s: seq<El>): seq<u32> { if s == [] then [] else AllWords(s[..|s| - 1]) + Words(s[|s| - 1]) }

  ghost predicate NoControl(s: seq<El>) { forall i :: 0 <= i < |s| ==> s[i].control == 0 }

  lemma {:induction false} RecordedAppend(words: seq<u32>, e: El)
    requires |words| % 3 == 0
    ensures Recorded(words + Words(e)) == Recorded(words) + [Load(e.count, e.value)]
  {
    if words == [] {
      WordRoundTrip(e.value);
      assert [] + Words(e) == Words(e) && Words(e)[3..] == [];
    } else {
      assert (words + Words(e))[3..] == words[3..] + Words(e);
      RecordedAppend(words[3..], e);
    }
  }

  lemma {:induction false} RecordedPlain(words: seq<u32>)
    ensures AllPlain(Recorded(words))
  {
    if |words| >= 3 { RecordedPlain(words[3..]); }
  }

  lemma {:induction false} RecordedAllWords(s: seq<El>)
    requires NoControl(s)
    ensures |AllWords(s)| % 3 == 0 && SameSequence(Recorded(AllWords(s)), s)
  {
    if s != [] {
      var n := |s| - 1;
      RecordedAllWords(s[..n]);
      RecordedAppend(AllWords(s[..n]), s[n]);
      SameOneMore(Recorded(AllWords(s[..n])), Load(s[n].count, s[n].value), s[..n], s[n]);
      assert s[..n] + [s[n]] == s;
    }
  }

  /** True as often as there is something to read, then false. */
  function Answers(n: nat): seq<bool> { seq(n, i => true) + [false] }

  lemma {:induction false} AnswersTrues(n: nat, k: nat)
    requires k <= n
    ensures Trues(Answers(n)[..k]) == k
  {
    if k > 0 {
      AnswersTrues(n, k - 1);
      TruesStep(Answers(n), k - 1);
    }
  }

  lemma AnswersSettle(n: nat)
    ensures Settles(Answers(n), n)
  {
    AnswersTrues(n, n);
    assert !Answers(n)[n];
  }

  /** Whatever the FIFO delivers, an element with a control word is never reported equal to it. */
  lemma PassesWithoutControl(reference: seq<El>, polls: seq<bool>, words: seq<u32>)
    requires reference != [] && Passes(reference, polls, Recorded(words))
    ensures NoControl(Pulses(reference))
  {
    var pulses := Pulses(reference);
    RecordedPlain(words);
    forall i | 0 <= i < |pulses| ensures pulses[i].control == 0 {
      assert Recorded(words)[..|pulses|][i] == Recorded(words)[i] && PlainLoad(Recorded(words)[i]);
    }
  }

  /**
    A reference can pass, for some words and some answers, exactly if its final element follows its
    last pulse directly and no pulse has a bit set in its control word.
  */
  lemma CanPassIff(reference: seq<El>)
    requires reference != []
    ensures (exists polls, words :: Passes(reference, polls, Recorded(words)))
      <==> TightEnd(reference) && NoControl(Pulses(reference))
  {
    var pulses := Pulses(reference);
    if TightEnd(reference) && NoControl(pulses) {
      var words := AllWords(pulses);
      RecordedAllWords(pulses);
      AnswersSettle(|pulses|);
      assert Recorded(words)[..|pulses|] == Recorded(words);
      assert Passes(reference, Answers(|pulses|), Recorded(words));
    }
    if polls, words :| Passes(reference, polls, Recorded(words)) { PassesWithoutControl(reference, polls, words); }
  }
}
