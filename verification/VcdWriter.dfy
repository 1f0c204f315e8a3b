/** Writing a sequence as a VCD file. */
module VcdWriter {
  import opened Bits
  import opened Wrappers
  import opened Elements
  import opened Scan
  import opened PulseSequence
  import opened Chars
  import opened Literals
  import VcdTime

  // ----- the form that is written

  /** A regular element becomes a plain load of the output it leads to. */
  function Level(v: word, e: El): seq<El> { [if e.IsRegular() then Load(e.count, e.Updated(v)) else e] }

  ghost function Levels(s: seq<El>, v: word): seq<El> { Outputs(PulseSequence.After, Level, v, s) }

  /** Levels with zero counts dropped and equal neighbours joined; refused if an element is not regular. */
  ghost function VcdForm(s: seq<El>): Result<seq<El>>
  {
    var m := Merged(Filter(Emits, Levels(s, 0)));
    if m.Err? || !AllRegular(m.value) then Err else m
  }

  lemma {:induction false} LevelsPlain(s: seq<El>, v: word, v': word)
    requires AllRegular(s)
    ensures AllPlain(Levels(s, v)) && Length(Levels(s, v)) == Length(s)
    ensures Waveform(Levels(s, v), v') == Waveform(s, v)
    decreases s
  {
    if s != [] {
      var w := PulseSequence.After(v, s[0]);
      LevelsPlain(s[1..], w, w);
      var x, rest := Load(s[0].count, w), Levels(s[1..], w);
      assert Levels(s, v) == [x] + rest;
      assert ([x] + rest)[1..] == rest;
      PlainFirst(x, rest);
    }
  }

  lemma PlainFirst(x: El, rest: seq<El>)
    ensures PlainLoad(x) && AllPlain(rest) ==> AllPlain([x] + rest)
  {
    assert forall i :: 0 < i < |[x] + rest| ==> ([x] + rest)[i] == rest[i - 1];
  }

  lemma PlainRest(s: seq<El>)
    requires s != [] && AllPlain(s)
    ensures AllPlain(s[1..]) && PlainLoad(s[0])
  {
  }

  lemma PlainIsRegular(e: El)
    requires PlainLoad(e)
    ensures e.IsRegular() && e.control == 0 && forall v :: e.Updated(v) == e.value
  {
  }

  lemma PlainWaveform(x: El, rest: seq<El>, v: word)
    requires PlainLoad(x)
    ensures Waveform([x] + rest, v) == Repeat(x.value, x.count) + Waveform(rest, x.value)
    ensures Length([x] + rest) == x.count + Length(rest)
  {
    PlainIsRegular(x);
    OneElement(x, v);
    WaveformConcat([x], rest, v);
    assert ([x] + rest)[1..] == rest;
  }

  ghost predicate NoneEmpty(s: seq<El>) { forall i :: 0 <= i < |s| ==> s[i].count > 0 }

  lemma NoneEmptyFirst(x: El, rest: seq<El>)
    requires x.count > 0 && NoneEmpty(rest)
    ensures NoneEmpty([x] + rest)
  {
  }

  /** Dropping zero counts from loads changes neither stream nor length. */
  lemma {:induction false} EmittingKeepsWaveform(s: seq<El>, v: word, v': word)
    requires AllPlain(s)
    ensures var kept := Filter(Emits, s);
      AllPlain(kept) && NoneEmpty(kept) && Length(kept) == Length(s) && Waveform(kept, v') == Waveform(s, v)
    decreases s
  {
    if s != [] {
      var x, rest := s[0], Filter(Emits, s[1..]);
      PlainRest(s);
      PlainIsRegular(x);
      assert [x] + s[1..] == s;
      PlainWaveform(x, s[1..], v);
      EmittingKeepsWaveform(s[1..], x.value, if x.count == 0 then v' else x.value);
      if x.count == 0 {
        assert Filter(Emits, s) == [] + rest == rest;
        assert Repeat(x.value, 0) + Waveform(s[1..], x.value) == Waveform(s[1..], x.value);
      } else {
        assert Filter(Emits, s) == [x] + rest;
        PlainWaveform(x, rest, v');
        PlainFirst(x, rest);
        NoneEmptyFirst(x, rest);
      }
    }
  }

  lemma {:induction false} MergeIntoPlain(x: El, s: seq<El>)
    requires MergeInto(x, s).Ok? && PlainLoad(x) && AllPlain(s)
    ensures AllPlain(MergeInto(x, s).value)
    decreases s
  {
    if s != [] {
      PlainRest(s);
      if Mergeable(x, s[0]) {
        MergeIntoPlain(x.WithCount(x.count + s[0].count), s[1..]);
      } else {
        MergeIntoPlain(s[0], s[1..]);
        PlainFirst(x, MergeInto(s[0], s[1..]).value);
      }
    }
  }

  lemma PlainIsSafe(s: seq<El>)
    requires AllPlain(s)
    ensures SafeToMerge(s)
  {
    forall i | 0 <= i < |s| - 1 ensures SafePair(s[i], s[i + 1]) {
      PlainIsRegular(s[i]);
      PlainIsRegular(s[i + 1]);
    }
  }

  lemma MergedPlain(s: seq<El>)
    requires Merged(s).Ok? && AllPlain(s)
    ensures AllPlain(Merged(s).value) && AllRegular(Merged(s).value) && SafeToMerge(s)
  {
    if s != [] {
      PlainRest(s);
      MergeIntoPlain(s[0], s[1..]);
    }
    PlainIsSafe(s);
    var m := Merged(s).value;
    forall i | 0 <= i < |m| ensures m[i].IsRegular() { PlainIsRegular(m[i]); }
  }

  lemma ShortMerges(s: seq<El>)
    requires AllPlain(s) && Length(s) <= U32_MAX
    ensures Merged(s).Ok?
  {
    forall i | 0 <= i < |s| ensures s[i].IsRegular() { PlainIsRegular(s[i]); }
    ShortHasNoLongRun(s);
    MergeFailure(s);
  }

  /** Every pair of neighbours in the written form has different values. */
  ghost predicate Alternating(s: seq<El>) { forall i :: 0 <= i < |s| - 1 ==> s[i].value != s[i + 1].value }

  /** What is known about the form of a regular sequence. */
  lemma FormShape(s: seq<El>, v: word)
    requires AllRegular(s) && VcdForm(s).Ok?
    ensures var f := VcdForm(s).value;
      AllPlain(f) && Alternating(f) && Length(f) == Length(s) && Waveform(f, v) == Waveform(s, 0)
  {
    LevelsPlain(s, 0, 0);
    var levels := Levels(s, 0);
    EmittingKeepsWaveform(levels, 0, v);
    var kept := Filter(Emits, levels);
    MergedPlain(kept);
    MergeShape(kept);
    MergeKeepsWaveform(kept, v);
    var f := Merged(kept).value;
    forall i | 0 <= i < |f| - 1 ensures f[i].value != f[i + 1].value {
      PlainIsRegular(f[i]);
      PlainIsRegular(f[i + 1]);
      assert !Mergeable(f[i], f[i + 1]);
    }
  }

  lemma ShortForm(s: seq<El>)
    requires AllRegular(s) && Length(s) <= U32_MAX
    ensures VcdForm(s).Ok?
  {
    LevelsPlain(s, 0, 0);
    EmittingKeepsWaveform(Levels(s, 0), 0, 0);
    ShortMerges(Filter(Emits, Levels(s, 0)));
    MergedPlain(Filter(Emits, Levels(s, 0)));
  }

  // ----- the file

  /** `bitset::to_string`: the lowest k bits of n, most significant first. */
  function Binary(n: nat, k: nat): (s: string)
    ensures |s| == k
    decreases k
  {
    if k == 0 then [] else Binary(n / 2, k - 1) + [Digit(n % 2)]
  }

  function TimeLine(t: nat): string { "#" + Dec(t) }
  function BinaryWord(w: word): string { "b" + Binary(NumberOf(w), 32) }
  function ValueLine(w: word): string { Spaced(BinaryWord(w), "!") }

  /** Date and version. */
  function Preface(date: string, version: string): seq<string>
  {
    ["$date", "  " + date, "$end", "$version", "  PulsePins " + version, "$end"]
  }

  /** Timescale and the declaration of the one signal. */
  function Signals(target: string, timescale: string): seq<string>
  {
    [TimescaleLine(timescale), "$scope module pulsepins $end", VarLine(target), "$upscope $end", "$enddefinitions $end"]
  }

  function Declarations(target: string, timescale: string, date: string, version: string): seq<string>
  {
    Preface(date, version) + Signals(target, timescale)
  }

  function TimescaleLine(timescale: string): string { "$timescale" + (" " + (timescale + " $end")) }
  function VarLine(target: string): string { Joined(["$var", "reg", "32", "!", target, "[31:0]", "$end"]) }

  /** The time and value of each element, and the time at the end. */
  ghost function Changes(s: seq<El>, t: nat): seq<string>
    decreases s
  {
    if s == [] then [TimeLine(t)]
    else [TimeLine(t), ValueLine(s[0].value)] + Changes(s[1..], t + s[0].count)
  }

  ghost function Body(f: seq<El>): seq<string>
  {
    if f == [] then [TimeLine(0), ValueLine(0)] else Changes(f, 0)
  }

  ghost function FileOf(f: seq<El>, target: string, timescale: string, date: string, version: string): string
  {
    Unlines(Declarations(target, timescale, date, version) + Body(f))
  }

  /** The file written for a sequence, or a failure. */
  ghost function Written(s: seq<El>, target: string, timescale: string, date: string, version: string): Result<string>
  {
    var f := VcdForm(s);
    if f.Err? || Length(f.value) > VcdTime.U64_MAX then Err else Ok(FileOf(f.value, target, timescale, date, version))
  }

  method TakeLevels(s: seq<El>) returns (r: seq<El>)
    ensures r == Levels(s, 0)
  {
    r := [];
    var current: word := 0;
    assert s[..0] == [];
    for i := 0 to |s|
      invariant r == Levels(s[..i], 0) && current == Running(s[..i], 0)
    {
      assert s[..i + 1] == s[..i] + [s[i]];
      ScanConcat(PulseSequence.After, Level, 0, s[..i], [s[i]]);
      EndConcat(PulseSequence.After, 0, s[..i], [s[i]]);
      ScanOne(PulseSequence.After, Level, current, s[i]);
      if s[i].IsRegular() {
        current := s[i].Updated(current);
        r := r + [Load(s[i].count, current)];
      } else {
        r := r + [s[i]];
      }
    }
    assert s[..|s|] == s;
  }

  method DropEmpty(s: seq<El>) returns (r: seq<El>)
    ensures r == Filter(Emits, s)
  {
    r := [];
    assert s[..0] == [];
    for i := 0 to |s|
      invariant r == Filter(Emits, s[..i])
    {
      assert s[..i + 1] == s[..i] + [s[i]];
      FilterConcat(Emits, s[..i], [s[i]]);
      FilterOne(Emits, s[i]);
      if Emits(s[i]) { r := r + [s[i]]; }
    }
    assert s[..|s|] == s;
  }

  // ----- elements that are not regular are refused

  lemma RegularFirst(x: El, rest: seq<El>)
    ensures AllRegular([x] + rest) <==> x.IsRegular() && AllRegular(rest)
  {
    var all := [x] + rest;
    assert all[0] == x;
    assert forall i :: 0 <= i < |rest| ==> rest[i] == all[i + 1];
  }

  lemma {:induction false} LevelsRegular(s: seq<El>, v: word)
    ensures AllRegular(Levels(s, v)) <==> AllRegular(s)
    decreases s
  {
    if s != [] {
      var w := PulseSequence.After(v, s[0]);
      LevelsRegular(s[1..], w);
      assert [s[0]] + s[1..] == s;
      RegularFirst(s[0], s[1..]);
      RegularFirst(Level(v, s[0])[0], Levels(s[1..], w));
      if s[0].IsRegular() { PlainIsRegular(Load(s[0].count, w)); }
    }
  }

  lemma {:induction false} EmittingRegular(s: seq<El>)
    ensures AllRegular(Filter(Emits, s)) <==> AllRegular(s)
  {
    if s != [] {
      EmittingRegular(s[1..]);
      assert [s[0]] + s[1..] == s;
      RegularFirst(s[0], s[1..]);
      RegularFirst(s[0], Filter(Emits, s[1..]));
      assert [] + Filter(Emits, s[1..]) == Filter(Emits, s[1..]);
    }
  }

  lemma {:induction false} MergeIntoRegular(x: El, s: seq<El>)
    requires MergeInto(x, s).Ok?
    ensures AllRegular(MergeInto(x, s).value) <==> x.IsRegular() && AllRegular(s)
    decreases s
  {
    if s == [] {
      RegularFirst(x, []);
      assert [x] + [] == [x];
    } else {
      assert [s[0]] + s[1..] == s;
      RegularFirst(s[0], s[1..]);
      if Mergeable(x, s[0]) {
        MergeIntoRegular(x.WithCount(x.count + s[0].count), s[1..]);
      } else {
        MergeIntoRegular(s[0], s[1..]);
        RegularFirst(x, MergeInto(s[0], s[1..]).value);
      }
    }
  }

  lemma MergedRegular(s: seq<El>)
    requires Merged(s).Ok?
    ensures AllRegular(Merged(s).value) <==> AllRegular(s)
  {
    if s != [] {
      MergeIntoRegular(s[0], s[1..]);
      assert [s[0]] + s[1..] == s;
      RegularFirst(s[0], s[1..]);
    }
  }

  /** Writing fails exactly on other kinds of elements, on runs too long to merge, and on time overflow. */
  lemma WriteFailure(s: seq<El>, target: string, timescale: string, date: string, version: string)
    ensures Written(s, target, timescale, date, version).Err? <==>
      !AllRegular(s) || HasLongRun(Filter(Emits, Levels(s, 0))) || Length(s) > VcdTime.U64_MAX
  {
    var kept := Filter(Emits, Levels(s, 0));
    LevelsRegular(s, 0);
    EmittingRegular(Levels(s, 0));
    MergeFailure(kept);
    if Merged(kept).Ok? {
      MergedRegular(kept);
      if AllRegular(s) { FormShape(s, 0); }
    }
  }

  // ----- the writer

  function WithLine(out: string, l: string): string { out + l + "\n" }
  function WithChange(out: string, t: nat, w: word): string { WithLine(WithLine(out, TimeLine(t)), ValueLine(w)) }

  lemma TwoLines(out: string, a: string, b: string, rest: seq<string>)
    ensures out + Unlines([a, b] + rest) == WithLine(WithLine(out, a), b) + Unlines(rest)
  {
    var ls := [a, b] + rest;
    assert ls[1..] == [b] + rest && ([b] + rest)[1..] == rest;
    assert Unlines(ls) == a + ("\n" + (b + ("\n" + Unlines(rest))));
  }

  lemma LastLine(out: string, a: string)
    ensures out + Unlines([a]) == WithLine(out, a)
  {
    assert [a][1..] == [] && Unlines([a]) == a + ("\n" + []);
  }

  lemma ChangeStep(s: seq<El>, t: nat, out: string)
    requires s != []
    ensures out + Unlines(Changes(s, t)) == WithChange(out, t, s[0].value) + Unlines(Changes(s[1..], t + s[0].count))
  {
    TwoLines(out, TimeLine(t), ValueLine(s[0].value), Changes(s[1..], t + s[0].count));
  }

  lemma ChangeAt(s: seq<El>, i: nat, t: nat, out: string)
    requires i < |s|
    ensures out + Unlines(Changes(s[i..], t))
      == WithChange(out, t, s[i].value) + Unlines(Changes(s[i + 1..], t + s[i].count))
  {
    ChangeStep(s[i..], t, out);
    assert s[i..][0] == s[i] && s[i..][1..] == s[i + 1..];
  }

  lemma {:induction false} PrefixOverflow(s: seq<El>, i: nat)
    requires AllRegular(s) && i <= |s|
    ensures Length(s[..i]) + Length(s[i..]) == Length(s)
  {
    if i == 0 {
      assert s[..0] == [] && s[0..] == s;
    } else {
      assert s[..i][1..] == s[1..][..i - 1] && s[1..][i - 1..] == s[i..];
      PrefixOverflow(s[1..], i - 1);
    }
  }

  /** The writer's loop has come to element i, which begins at `time`. */
  ghost predicate At(s: seq<El>, i: nat, time: nat, last: word)
  {
    i < |s| && last == s[i].value && time == Length(s[..i])
  }

  /** What `out` lacks of the text to be written are the changes from element i on, which begins at `t`. */
  ghost predicate LeftToWrite(s: seq<El>, target: string, i: nat, t: nat, out: string)
    requires i <= |s|
  {
    target == out + Unlines(Changes(s[i..], t))
  }

  lemma LeftStep(s: seq<El>, target: string, i: nat, t: nat, out: string)
    requires i < |s| && LeftToWrite(s, target, i, t, out)
    ensures LeftToWrite(s, target, i + 1, t + s[i].count, WithChange(out, t, s[i].value))
  {
    ChangeAt(s, i, t, out);
  }

  lemma EverythingLeft(s: seq<El>, head: string)
    ensures LeftToWrite(s, head + Unlines(Changes(s, 0)), 0, 0, head)
  {
    assert s[0..] == s;
  }

  lemma NothingLeft(s: seq<El>, target: string, t: nat, out: string)
    requires LeftToWrite(s, target, |s|, t, out)
    ensures WithLine(out, TimeLine(t)) == target
  {
    NoMoreChanges(t, out);
    assert s[|s|..] == [];
  }

  lemma NoMoreChanges(t: nat, out: string)
    ensures out + Unlines(Changes([], t)) == WithLine(out, TimeLine(t))
  {
    LastLine(out, TimeLine(t));
  }

  lemma NotedChange(s: seq<El>, i: nat, t: nat, out: string)
    requires i + 1 < |s| && Alternating(s)
    ensures Noted(out, t, s[i].value, s[i + 1].value) == WithChange(out, t, s[i + 1].value)
  {
  }

  lemma AtStep(s: seq<El>, i: nat, time: nat, last: word)
    requires At(s, i, time, last) && AllRegular(s)
    ensures time + s[i].count <= Length(s) && (i + 1 == |s| ==> time + s[i].count == Length(s))
    ensures i + 1 < |s| ==> At(s, i + 1, time + s[i].count, s[i + 1].value)
  {
    PrefixStep(s, i);
  }

  /** Writes a change only if there is one. */
  function Noted(out: string, t: nat, last: word, next: word): string
  {
    if next == last then out else WithChange(out, t, next)
  }

  /** On to element j at time t: its time and value are written, since the value differs. */
  method WriteNext(s: seq<El>, ghost target: string, j: nat, t: nat, last: word, out: string) returns (out': string)
    requires 0 < j < |s| && Alternating(s) && last == s[j - 1].value && LeftToWrite(s, target, j, t, out)
    ensures LeftToWrite(s, target, j + 1, t + s[j].count, out')
  {
    LeftStep(s, target, j, t, out);
    NotedChange(s, j - 1, t, out);
    out' := Noted(out, t, last, s[j].value);
  }

  /** The loop over the merged form; a change is only written where the value differs. */
  method WriteChanges(s: seq<El>, head: string) returns (r: Result<string>)
    requires s != [] && AllRegular(s) && Alternating(s)
    ensures r == if Length(s) > VcdTime.U64_MAX then Err else Ok(head + Unlines(Changes(s, 0)))
  {
    var time: nat, last, i := 0, s[0].value, 0;
    ghost var target := head + Unlines(Changes(s, 0));
    EverythingLeft(s, head);
    LeftStep(s, target, 0, 0, head);
    var out := WithChange(head, 0, last);
    assert s[..0] == [];
    while i + 1 < |s|
      invariant 0 <= i < |s| && At(s, i, time, last) && time <= VcdTime.U64_MAX
      invariant LeftToWrite(s, target, i + 1, time + s[i].count, out)
    {
      AtStep(s, i, time, last);
      if time > VcdTime.U64_MAX - s[i].count { return Err; }
      time, i := time + s[i].count, i + 1;
      out := WriteNext(s, target, i, time, last, out);
      last := s[i].value;
    }
    AtStep(s, i, time, last);
    if time > VcdTime.U64_MAX - s[i].count { return Err; }
    NothingLeft(s, target, time + s[i].count, out);
    return Ok(WithLine(out, TimeLine(time + s[i].count)));
  }

  lemma PrefixStep(s: seq<El>, i: nat)
    requires AllRegular(s) && i < |s|
    ensures Length(s[..i + 1]) == Length(s[..i]) + s[i].count <= Length(s)
    ensures i + 1 == |s| ==> Length(s[..i + 1]) == Length(s)
  {
    PrefixOverflow(s, i);
    PrefixOverflow(s, i + 1);
    assert s[i..][1..] == s[i + 1..];
    assert s[..|s|] == s;
  }

  /** `write_VCD`. */
  method WriteVcd(s: seq<El>, target: string, timescale: string, date: string, version: string)
    returns (r: Result<string>)
    ensures r == Written(s, target, timescale, date, version)
  {
    var levels := TakeLevels(s);
    var kept := DropEmpty(levels);
    var m := Merge(kept);
    if m.Err? { return Err; }
    var f := m.value;
    if exists i :: 0 <= i < |f| && !f[i].IsRegular() { return Err; }
    FormIsShaped(s, f);
    var head := WriteHeader(target, timescale, date, version);
    UnlinesConcat(Declarations(target, timescale, date, version), Body(f));
    if f == [] {
      TwoLines(head, TimeLine(0), ValueLine(0), []);
      assert [TimeLine(0), ValueLine(0)] + [] == [TimeLine(0), ValueLine(0)];
      assert WithChange(head, 0, 0) + Unlines([]) == WithChange(head, 0, 0);
      return Ok(WithChange(head, 0, 0));
    }
    r := WriteChanges(f, head);
  }

  lemma FormIsShaped(s: seq<El>, f: seq<El>)
    requires VcdForm(s) == Ok(f)
    ensures AllRegular(s) && AllRegular(f) && Alternating(f)
  {
    LevelsRegular(s, 0);
    EmittingRegular(Levels(s, 0));
    MergedRegular(Filter(Emits, Levels(s, 0)));
    FormShape(s, 0);
  }

  method WriteHeader(target: string, timescale: string, date: string, version: string) returns (out: string)
    ensures out == Unlines(Declarations(target, timescale, date, version))
  {
    var ls := Declarations(target, timescale, date, version);
    out := "";
    for i := 0 to |ls|
      invariant out == Unlines(ls[..i])
    {
      assert ls[..i + 1] == ls[..i] + [ls[i]];
      UnlinesConcat(ls[..i], [ls[i]]);
      LastLine(out, ls[i]);
      out := WithLine(out, ls[i]);
    }
    assert ls[..|ls|] == ls;
  }
}
