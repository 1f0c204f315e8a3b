/** Reading back what the VCD writer writes. */
module VcdRoundTrip {
  import opened Bits
  import opened Wrappers
  import opened Elements
  import opened PulseSequence
  import opened Chars
  import opened Literals
  import opened VcdReader
  import opened VcdWriter
  import VcdTime
  import Scan

  // ----- timestamps

  lemma TrimSolid(s: string)
    requires s != [] && !IsSpace(s[0]) && !IsSpace(s[|s| - 1])
    ensures Trim(s) == s
  {
  }

  /** Reader states in which file times and clock periods coincide. */
  ghost predicate Matched(r: Reader, scale: VcdTime.u64)
  {
    && !r.inDefinitions && r.id == "!"
    && scale > 0 && r.ts.denominator > 0 && r.ts.numeratorNs as int == scale as int * r.ts.denominator as int
  }

  lemma TimeLineText(t: nat)
    ensures Trim(TimeLine(t)) == TimeLine(t) && IsLine(TimeLine(t))
    ensures TimeLine(t)[0] == '#' && TimeLine(t)[1..] == Dec(t)
  {
    PrintRoundTrip(t, 10);
    var d, s := Dec(t), TimeLine(t);
    assert s[|s| - 1] == d[|d| - 1] && d[|d| - 1] in d;
    TrimSolid(s);
    forall c | c in s ensures c != '\n' { }
  }

  lemma ReadsTimestamp(t: nat, scale: VcdTime.u64, ts: Timescale)
    requires t < U64_RANGE && scale > 0 && ts.denominator > 0
    requires ts.numeratorNs as int == scale as int * ts.denominator as int
    ensures Timestamp(TimeLine(t), scale, ts) == if t <= U32_MAX then Ok(t) else Err
  {
    TimeLineText(t);
    DecimalText(t, 10);
    VcdTime.MatchedScaleIsIdentity(t as VcdTime.u64, scale, ts);
  }

  lemma ReadsTime(r: Reader, t: nat, target: string, scale: VcdTime.u64)
    requires Matched(r, scale) && r.time <= t < U64_RANGE
    ensures Step(r, TimeLine(t), target, scale) == if t <= U32_MAX then Ok(r.(time := t)) else Err
  {
    TimeLineText(t);
    ReadsTimestamp(t, scale, r.ts);
  }

  // ----- value changes

  lemma {:induction false} BinaryRoundTrip(n: nat, k: nat)
    requires n < Pow2(k)
    ensures var s := Binary(n, k);
      IsBased(s, 2) && Known(s, 2) == n && Unknown(s, 2) == 0 && NoSpace(s) && '_' !in s && '\'' !in s
    decreases k
  {
    if k > 0 {
      BinaryRoundTrip(n / 2, k - 1);
      var s := Binary(n, k);
      assert s[..k - 1] == Binary(n / 2, k - 1) && s[k - 1] == Digit(n % 2);
    }
  }

  lemma WordText(w: word)
    ensures var s := Binary(NumberOf(w), 32);
      IsBased(s, 2) && Known(s, 2) == NumberOf(w) && Unknown(s, 2) == 0 && NoSpace(s) && '_' !in s && '\'' !in s
  {
    WordRoundTrip(w);
    Pow32();
    BinaryRoundTrip(NumberOf(w), 32);
  }

  lemma QuotedBinary(s: string)
    requires s != [] && IsBased(s, 2) && Unknown(s, 2) == 0 && Known(s, 2) < U64_RANGE
    requires NoSpace(s) && '_' !in s && '\'' !in s
    ensures VerilogInt("'" + ("b" + s)) == Ok(Known(s, 2))
  {
    var t := "'" + ("b" + s);
    assert t[|t| - 1] == s[|s| - 1] && s[|s| - 1] in s;
    TrimSolid(t);
    assert '_' !in t;
    NoUnderscores(t);
    assert t[0] == '\'' && t[1..] == "b" + s && t[1..][1..] == s;
    assert Find('\'', t) == 0;
    QuotedBinaryBody(t, s);
  }

  lemma QuotedBinaryBody(t: string, s: string)
    requires s != [] && IsBased(s, 2) && Unknown(s, 2) == 0 && Known(s, 2) < U64_RANGE && '\'' !in s
    requires |t| == |s| + 2 && t[0] == '\'' && t[1] == 'b' && t[1..][1..] == s
    ensures QuotedValue(t, 0) == Ok(Known(s, 2))
  {
    var rest := t[1..];
    assert rest[0] == 'b' && rest == ['b'] + s;
    assert '\'' !in rest;
  }

  lemma ValueLineText(w: word)
    ensures var t := ValueLine(w);
      Trim(t) == t && t[0] == 'b' && Words(t) == [BinaryWord(w), "!"] && IsLine(t)
  {
    WordText(w);
    var b, t := BinaryWord(w), ValueLine(w);
    assert b[0] == 'b' && t == b + " !";
    TrimSolid(t);
    forall c | c in b ensures !IsSpace(c) { }
    assert IsWord(b);
    SpacedWords(b, "!");
    OneWord("!");
    assert IsLine(t);
  }

  lemma ValueWordText(w: word)
    ensures VerilogInt("'" + BinaryWord(w)) == Ok(NumberOf(w)) && NumberOf(w) <= 0xFFFF_FFFF && WordOf(NumberOf(w)) == w
  {
    WordText(w);
    WordRoundTrip(w);
    QuotedBinary(Binary(NumberOf(w), 32));
  }

  lemma ReadsValue(r: Reader, w: word, target: string, scale: VcdTime.u64)
    requires !r.inDefinitions && r.id == "!"
    ensures Step(r, ValueLine(w), target, scale) == Ok(r.(updates := r.updates + [Update(w, r.time)]))
  {
    ValueLineText(w);
    ValueWordText(w);
    ReadsWords(r, ValueLine(w), BinaryWord(w), w);
  }

  lemma ReadsWords(r: Reader, t: string, b: string, w: word)
    requires t != [] && t[0] == 'b' && Words(t) == [b, "!"] && r.id == "!"
    requires VerilogInt("'" + b) == Ok(NumberOf(w)) && NumberOf(w) <= 0xFFFF_FFFF && WordOf(NumberOf(w)) == w
    ensures ValueChange(r, t) == Ok(r.(updates := r.updates + [Update(w, r.time)]))
  {
  }

  // ----- the body of the file

  /** Where each element begins. */
  ghost function Points(s: seq<El>, t: nat): seq<Update>
    requires t + Length(s) <= U32_MAX
    decreases s
  {
    if s == [] then [] else
      [Update(s[0].value, t)] + Points(s[1..], if s[0].IsRegular() then t + s[0].count else t)
  }

  ghost function AtEnd(r: Reader, s: seq<El>, t: nat): Result<Reader>
  {
    if t + Length(s) > U32_MAX then Err
    else Ok(r.(time := t + Length(s), updates := r.updates + Points(s, t)))
  }

  lemma ReadOne(r: Reader, l: string, rest: seq<string>, target: string, scale: VcdTime.u64)
    ensures var next := Step(r, l, target, scale);
      ReadLines(r, [l] + rest, target, scale) == if next.Err? then Err else ReadLines(next.value, rest, target, scale)
  {
    assert ([l] + rest)[1..] == rest;
  }

  ghost function WithUpdate(r: Reader, w: word, t: u32): Reader { r.(time := t, updates := r.updates + [Update(w, t)]) }

  lemma {:induction false} ReadsNoted(r: Reader, w: word, t: u32, rest: seq<string>, target: string, scale: VcdTime.u64)
    requires Matched(r, scale)
    ensures ReadLines(r.(time := t), [ValueLine(w)] + rest, target, scale)
      == ReadLines(WithUpdate(r, w, t), rest, target, scale)
  {
    ReadOne(r.(time := t), ValueLine(w), rest, target, scale);
    ReadsValue(r.(time := t), w, target, scale);
  }

  lemma {:induction false} ReadsPair(r: Reader, w: word, t: nat, rest: seq<string>, target: string, scale: VcdTime.u64)
    requires Matched(r, scale) && r.time <= t < U64_RANGE
    ensures ReadLines(r, [TimeLine(t), ValueLine(w)] + rest, target, scale)
      == if t > U32_MAX then Err else ReadLines(WithUpdate(r, w, t), rest, target, scale)
  {
    var tail := [ValueLine(w)] + rest;
    assert [TimeLine(t), ValueLine(w)] + rest == [TimeLine(t)] + tail;
    ReadOne(r, TimeLine(t), tail, target, scale);
    ReadsTime(r, t, target, scale);
    if t <= U32_MAX { ReadsNoted(r, w, t, rest, target, scale); }
  }

  lemma ReadsEnd(r: Reader, t: nat, target: string, scale: VcdTime.u64)
    requires Matched(r, scale) && r.time <= t < U64_RANGE
    ensures ReadLines(r, Changes([], t), target, scale) == AtEnd(r, [], t)
  {
    ReadsTime(r, t, target, scale);
    ReadOne(r, TimeLine(t), [], target, scale);
    assert [TimeLine(t)] + [] == Changes([], t);
    assert r.updates + [] == r.updates;
  }

  lemma {:induction false} ReadsChanges(r: Reader, s: seq<El>, t: nat, target: string, scale: VcdTime.u64)
    requires Matched(r, scale) && r.time <= t && AllPlain(s) && t + Length(s) < U64_RANGE
    ensures ReadLines(r, Changes(s, t), target, scale) == AtEnd(r, s, t)
    decreases s
  {
    if s == [] {
      ReadsEnd(r, t, target, scale);
    } else {
      PlainRest(s);
      PlainIsRegular(s[0]);
      ReadsPair(r, s[0].value, t, Changes(s[1..], t + s[0].count), target, scale);
      if t <= U32_MAX {
        ReadsChanges(WithUpdate(r, s[0].value, t), s[1..], t + s[0].count, target, scale);
        AtEndStep(r, s, t);
      }
    }
  }

  lemma AtEndStep(r: Reader, s: seq<El>, t: nat)
    requires s != [] && s[0].IsRegular() && t <= U32_MAX
    ensures AtEnd(WithUpdate(r, s[0].value, t), s[1..], t + s[0].count) == AtEnd(r, s, t)
  {
    if t + Length(s) <= U32_MAX {
      var p := Points(s[1..], t + s[0].count);
      assert r.updates + [Update(s[0].value, t)] + p == r.updates + ([Update(s[0].value, t)] + p);
    }
  }

  /** The differences of the points are the elements again. */
  lemma {:induction false} BetweenPoints(s: seq<El>, t: nat)
    requires AllPlain(s) && t + Length(s) <= U32_MAX
    ensures Between(Points(s, t) + [Update(0, t + Length(s))]) == Ok(s)
    decreases s
  {
    var l := Points(s, t) + [Update(0, t + Length(s))];
    if s != [] {
      PlainRest(s);
      PlainIsRegular(s[0]);
      var t' := t + s[0].count;
      BetweenPoints(s[1..], t');
      var l' := Points(s[1..], t') + [Update(0, t' + Length(s[1..]))];
      assert l[1..] == l' && l'[0].count == t' && l[0] == Update(s[0].value, t);
      assert [s[0]] + s[1..] == s;
    }
  }

  // ----- the declarations

  lemma TrimRightFirst(s: string)
    requires s != [] && !IsSpace(s[0])
    ensures TrimRight(s) != [] && TrimRight(s)[0] == s[0]
  {
    if IsSpace(s[|s| - 1]) { TrimRightFirst(s[..|s| - 1]); }
  }

  /** Lines that say nothing to the reader. */
  lemma Ignored(r: Reader, l: string, target: string, scale: VcdTime.u64)
    requires r.inDefinitions && !r.inTimescale
    requires var t := Trim(l); !StartsWith(t, "$timescale") && !StartsWith(t, "$var") && t != "$enddefinitions $end"
    ensures Step(r, l, target, scale) == Ok(r)
  {
  }

  lemma NotStarting(t: string, prefix: string, i: nat)
    requires i < |t| && i < |prefix| && t[i] != prefix[i]
    ensures !StartsWith(t, prefix)
  {
    if |t| >= |prefix| { assert t[..|prefix|][i] == t[i]; }
  }

  lemma IgnoredText(r: Reader, l: string, c: char, rest: string, target: string, scale: VcdTime.u64)
    requires r.inDefinitions && !r.inTimescale && !IsSpace(c) && c != '$' && l == "  " + ([c] + rest)
    ensures Step(r, l, target, scale) == Ok(r)
  {
    var t := [c] + rest;
    assert l[1..][1..] == t;
    assert TrimLeft(l) == TrimLeft(l[1..]) == TrimLeft(t) == t;
    TrimRightFirst(t);
    NotStarting(Trim(l), "$timescale", 0);
    NotStarting(Trim(l), "$var", 0);
    Ignored(r, l, target, scale);
  }

  /** Dates as they are printed: they do not look like a keyword. */
  ghost predicate PlainDate(date: string) { date != [] && !IsSpace(date[0]) && date[0] != '$' && IsLine(date) }

  lemma ReadsDate(r: Reader, date: string, target: string, scale: VcdTime.u64)
    requires r.inDefinitions && !r.inTimescale && PlainDate(date)
    ensures Step(r, "  " + date, target, scale) == Ok(r)
  {
    assert date == [date[0]] + date[1..];
    IgnoredText(r, "  " + date, date[0], date[1..], target, scale);
  }

  lemma ReadsVersion(r: Reader, version: string, target: string, scale: VcdTime.u64)
    requires r.inDefinitions && !r.inTimescale
    ensures Step(r, "  PulsePins " + version, target, scale) == Ok(r)
  {
    assert "  PulsePins " + version == "  " + (['P'] + ("ulsePins " + version));
    IgnoredText(r, "  PulsePins " + version, 'P', "ulsePins " + version, target, scale);
  }

  lemma Keywords(r: Reader, target: string, scale: VcdTime.u64)
    requires r.inDefinitions && !r.inTimescale
    ensures Step(r, "$date", target, scale) == Ok(r)
    ensures Step(r, "$end", target, scale) == Ok(r)
    ensures Step(r, "$version", target, scale) == Ok(r)
  {
    TrimSolid("$date");
    TrimSolid("$end");
    TrimSolid("$version");
  }

  lemma ScopeLine(r: Reader, target: string, scale: VcdTime.u64)
    requires r.inDefinitions && !r.inTimescale
    ensures Step(r, "$scope module pulsepins $end", target, scale) == Ok(r)
  {
    var l := "$scope module pulsepins $end";
    TrimSolid(l);
    NotStarting(l, "$timescale", 1);
    NotStarting(l, "$var", 1);
    Ignored(r, l, target, scale);
  }

  lemma UpscopeLine(r: Reader, target: string, scale: VcdTime.u64)
    requires r.inDefinitions && !r.inTimescale
    ensures Step(r, "$upscope $end", target, scale) == Ok(r)
  {
    var l := "$upscope $end";
    TrimSolid(l);
    NotStarting(l, "$timescale", 1);
    NotStarting(l, "$var", 1);
    Ignored(r, l, target, scale);
  }

  lemma EndsDeclarations(r: Reader, l: string, target: string, scale: VcdTime.u64)
    requires r.inDefinitions && !r.inTimescale && Trim(l) == l && l == "$enddefinitions $end"
    requires !StartsWith(l, "$timescale") && !StartsWith(l, "$var")
    ensures Step(r, l, target, scale) == Ok(r.(inDefinitions := false))
  {
  }

  lemma EndLine(r: Reader, target: string, scale: VcdTime.u64)
    requires r.inDefinitions && !r.inTimescale
    ensures Step(r, "$enddefinitions $end", target, scale) == Ok(r.(inDefinitions := false))
  {
    var l := "$enddefinitions $end";
    TrimSolid(l);
    NotStarting(l, "$timescale", 1);
    NotStarting(l, "$var", 1);
    EndsDeclarations(r, l, target, scale);
  }

  lemma ReadsVar(r: Reader, target: string, scale: VcdTime.u64)
    requires r.inDefinitions && !r.inTimescale && IsWord(target)
    ensures Step(r, VarLine(target), target, scale) == Ok(r.(id := "!"))
  {
    var ws := ["$var", "reg", "32", "!", target, "[31:0]", "$end"];
    var l := VarLine(target);
    JoinedAlone(ws);
    JoinedEnds(ws);
    TrimSolid(l);
    assert l == "$var" + (" " + Joined(ws[1..]));
    assert l[..4] == "$var" && l[1] == 'v';
    NotStarting(l, "$timescale", 1);
  }

  // ----- the timescale

  lemma {:induction false} EndMarkerExact(s: string)
    requires '$' !in s
    ensures EndMarker(s + "$end") == Some(|s|)
  {
    var t := s + "$end";
    if s == [] {
      assert t == "$end" && t[..4] == "$end";
    } else {
      assert t[0] == s[0] && s[0] in s && t[..4][0] == t[0] && t[1..] == s[1..] + "$end";
      EndMarkerExact(s[1..]);
    }
  }

  lemma TrimSpaced(s: string)
    ensures Trim(TrimLeft(s) + " ") == Trim(s)
  {
    var a := TrimLeft(s);
    TrimLeftShape(s);
    TrimLeftConcat(a, " ");
    TrimRightSpace(a, ' ');
    if a == [] {
      assert a + " " == " " && TrimLeft(" ") == TrimLeft(" "[1..]);
    } else {
      assert TrimLeft(a) == a;
    }
  }

  lemma TimescalePayload(timescale: string)
    requires '$' !in timescale
    ensures StripEnd(Trim(" " + (timescale + " $end"))) == (Trim(timescale), true)
  {
    var a, t := TrimLeft(timescale), timescale + " $end";
    TrimLeftShape(timescale);
    TrimLeftConcat(" ", t);
    TrimLeftConcat(timescale, " $end");
    assert TrimLeft(" ") == TrimLeft(" "[1..]) == [];
    assert TrimLeft(" $end") == TrimLeft(" $end"[1..]) == "$end";
    var u := if a == [] then "$end" else a + " $end";
    assert TrimLeft(" " + t) == u;
    assert u[|u| - 1] == 'd' && TrimRight(u) == u;
    var p := if a == [] then [] else a + " ";
    assert u == p + "$end";
    EndMarkerExact(p);
    assert u[..|p|] == p;
    TrimSpaced(timescale);
    if a == [] { assert Trim(a + " ") == Trim(timescale) == []; }
  }

  lemma ReadsTimescale(r: Reader, timescale: string, ts: Timescale, target: string, scale: VcdTime.u64)
    requires r.inDefinitions && !r.inTimescale && '$' !in timescale && TimescaleOr(Trim(timescale), r.ts) == Ok(ts)
    ensures Step(r, TimescaleLine(timescale), target, scale) == Ok(r.(ts := ts))
  {
    var l := TimescaleLine(timescale);
    assert l[0] == '$' && l[|l| - 1] == 'd';
    assert l[..10] == "$timescale" && l[10..] == " " + (timescale + " $end");
    TrimSolid(l);
    TimescalePayload(timescale);
  }

  // ----- the whole file

  lemma Next(r: Reader, r': Reader, ls: seq<string>, target: string, scale: VcdTime.u64)
    requires ls != [] && Step(r, ls[0], target, scale) == Ok(r')
    ensures ReadLines(r, ls, target, scale) == ReadLines(r', ls[1..], target, scale)
  {
  }

  lemma ReadsPreface(r: Reader, date: string, version: string, target: string, scale: VcdTime.u64)
    requires r.inDefinitions && !r.inTimescale && PlainDate(date)
    ensures ReadLines(r, Preface(date, version), target, scale) == Ok(r)
  {
    var ls := Preface(date, version);
    Keywords(r, target, scale);
    ReadsDate(r, date, target, scale);
    ReadsVersion(r, version, target, scale);
    Next(r, r, ls, target, scale);
    Next(r, r, ls[1..], target, scale);
    Next(r, r, ls[2..], target, scale);
    Next(r, r, ls[3..], target, scale);
    Next(r, r, ls[4..], target, scale);
    Next(r, r, ls[5..], target, scale);
    Suffixes(ls);
    assert ls[6..] == [];
  }

  lemma Suffixes<T>(ls: seq<T>)
    ensures forall i {:trigger ls[i..]} :: 0 <= i < |ls| ==> ls[i..][1..] == ls[i + 1..]
  {
  }

  /** The reader after the declarations. */
  ghost function Ready(ts: Timescale): Reader { START.(id := "!", inDefinitions := false, ts := ts) }

  lemma ReadsSignals(timescale: string, ts: Timescale, target: string, scale: VcdTime.u64)
    requires '$' !in timescale && TimescaleOr(Trim(timescale), START.ts) == Ok(ts) && IsWord(target)
    ensures ReadLines(START, Signals(target, timescale), target, scale) == Ok(Ready(ts))
  {
    var ls := Signals(target, timescale);
    var r1 := START.(ts := ts);
    var r2 := r1.(id := "!");
    ReadsTimescale(START, timescale, ts, target, scale);
    ScopeLine(r1, target, scale);
    ReadsVar(r1, target, scale);
    UpscopeLine(r2, target, scale);
    EndLine(r2, target, scale);
    Next(START, r1, ls, target, scale);
    Next(r1, r1, ls[1..], target, scale);
    Next(r1, r2, ls[2..], target, scale);
    Next(r2, r2, ls[3..], target, scale);
    Next(r2, Ready(ts), ls[4..], target, scale);
    Suffixes(ls);
    assert ls[5..] == [];
  }

  lemma ConcatLines(a: string, b: string)
    requires IsLine(a) && IsLine(b)
    ensures IsLine(a + b)
  {
  }

  lemma VarIsLine(target: string)
    requires IsWord(target)
    ensures IsLine(VarLine(target))
  {
    JoinedIsLine(["$var", "reg", "32", "!", target, "[31:0]", "$end"]);
  }

  lemma DeclarationLines(target: string, timescale: string, date: string, version: string)
    requires IsWord(target) && IsLine(timescale) && IsLine(date) && IsLine(version)
    ensures forall l :: l in Declarations(target, timescale, date, version) ==> IsLine(l)
  {
    VarIsLine(target);
    ConcatLines("  ", date);
    ConcatLines("  PulsePins ", version);
    ConcatLines(timescale, " $end");
    ConcatLines(" ", timescale + " $end");
    ConcatLines("$timescale", " " + (timescale + " $end"));
  }

  lemma {:induction false} ChangeLines(s: seq<El>, t: nat)
    ensures forall l :: l in Changes(s, t) ==> IsLine(l)
    decreases s
  {
    TimeLineText(t);
    if s != [] {
      ValueLineText(s[0].value);
      ChangeLines(s[1..], t + s[0].count);
    }
  }

  lemma BodyLines(f: seq<El>)
    ensures forall l :: l in Body(f) ==> IsLine(l)
  {
    ChangeLines(f, 0);
    TimeLineText(0);
    ValueLineText(0);
  }

  /** What may be passed as names and dates: no line breaks, and nothing that reads as a keyword. */
  ghost predicate PlainNames(target: string, timescale: string, date: string, version: string)
  {
    IsWord(target) && IsLine(timescale) && '$' !in timescale && PlainDate(date) && IsLine(version)
  }

  /** The declarations leave a reader ready for whatever changes follow. */
  lemma ReadsHead(target: string, timescale: string, date: string, version: string, ts: Timescale, body: seq<string>,
                  scale: VcdTime.u64)
    requires PlainNames(target, timescale, date, version) && TimescaleOr(Trim(timescale), START.ts) == Ok(ts)
    ensures ReadLines(START, Declarations(target, timescale, date, version) + body, target, scale)
      == ReadLines(Ready(ts), body, target, scale)
  {
    ReadsPreface(START, date, version, target, scale);
    ReadsSignals(timescale, ts, target, scale);
    ReadConcat(START, Preface(date, version), Signals(target, timescale), target, scale);
    ReadConcat(START, Declarations(target, timescale, date, version), body, target, scale);
  }

  lemma ReadsFile(f: seq<El>, target: string, timescale: string, date: string, version: string, ts: Timescale,
                  scale: VcdTime.u64)
    requires PlainNames(target, timescale, date, version) && TimescaleOr(Trim(timescale), START.ts) == Ok(ts)
    ensures ReadLines(START, Lines(FileOf(f, target, timescale, date, version)), target, scale)
      == ReadLines(Ready(ts), Body(f), target, scale)
  {
    var head := Declarations(target, timescale, date, version);
    DeclarationLines(target, timescale, date, version);
    BodyLines(f);
    LinesRoundTrip(head + Body(f));
    ReadsHead(target, timescale, date, version, ts, Body(f), scale);
  }

  /** An empty form is written as a single zero at time 0, and read back as one element without clocks. */
  lemma ReadsEmptyBody(ts: Timescale, target: string, scale: VcdTime.u64)
    requires Matched(Ready(ts), scale)
    ensures ReadLines(Ready(ts), Body([]), target, scale) == Ok(Ready(ts).(updates := [Update(0, 0)]))
  {
    ReadsPair(Ready(ts), 0, 0, [], target, scale);
    assert [TimeLine(0), ValueLine(0)] + [] == Body([]);
    assert [] + [Update(0, 0)] == [Update(0, 0)];
  }

  lemma ReadsBody(f: seq<El>, ts: Timescale, target: string, scale: VcdTime.u64)
    requires Matched(Ready(ts), scale) && f != [] && AllPlain(f) && Length(f) < U64_RANGE
    ensures ReadLines(Ready(ts), Body(f), target, scale) == AtEnd(Ready(ts), f, 0)
  {
    ReadsChanges(Ready(ts), f, 0, target, scale);
  }

  lemma EmptyElements(ts: Timescale)
    ensures ElementsOf(Closed(Ok(Ready(ts).(updates := [Update(0, 0)])))) == Ok([Load(0, 0)])
  {
    BetweenTwo(Update(0, 0), Update(0, 0));
    assert [Update(0, 0)] + [Update(0, 0)] == [Update(0, 0), Update(0, 0)];
  }

  /** The reader at the end of the file. */
  ghost function Finished(ts: Timescale, f: seq<El>): Reader
    requires Length(f) <= U32_MAX
  {
    Ready(ts).(time := Length(f), updates := Points(f, 0))
  }

  lemma {:induction false} FinishedAtEnd(ts: Timescale, f: seq<El>)
    requires Length(f) <= U32_MAX && f != []
    ensures AtEnd(Ready(ts), f, 0) == Ok(Finished(ts, f)) && Finished(ts, f).updates != [] && Finished(ts, f).id == "!"
  {
    assert [] + Points(f, 0) == Points(f, 0);
  }

  lemma {:induction false} PointElements(ts: Timescale, f: seq<El>)
    requires f != [] && AllPlain(f)
    ensures ElementsOf(Closed(AtEnd(Ready(ts), f, 0))) == if Length(f) <= U32_MAX then Ok(f) else Err
  {
    if Length(f) <= U32_MAX {
      FinishedAtEnd(ts, f);
      BetweenPoints(f, 0);
    }
  }

  /**
    Loading a written file with the matching scale gives exactly the written form. It is refused
    exactly when the form lasts longer than a 32-bit counter can say, and the empty form comes
    back as one element of no length.
  */
  lemma {:induction false} LoadsForm(f: seq<El>, target: string, timescale: string, date: string, version: string,
                                     ts: Timescale, scale: VcdTime.u64)
    requires PlainNames(target, timescale, date, version) && TimescaleOr(Trim(timescale), START.ts) == Ok(ts)
    requires Matched(Ready(ts), scale) && AllPlain(f) && Length(f) <= VcdTime.U64_MAX
    ensures Loaded(FileOf(f, target, timescale, date, version), target, scale)
      == if f == [] then Ok([Load(0, 0)]) else if Length(f) <= U32_MAX then Ok(f) else Err
  {
    ReadsFile(f, target, timescale, date, version, ts, scale);
    if f == [] {
      ReadsEmptyBody(ts, target, scale);
      EmptyElements(ts);
    } else {
      ReadsBody(f, ts, target, scale);
      PointElements(ts, f);
    }
  }

  lemma BetweenTwo(a: Update, b: Update)
    requires a.count <= b.count
    ensures Between([a, b]) == Ok([Load(b.count - a.count, a.value)])
  {
    assert [a, b][1..] == [b];
    assert Between([b]) == Ok([]);
    var e := Load(b.count - a.count, a.value);
    assert [e] + [] == [e];
  }

  /** A sequence that has clocks and fits the counter survives as its normal form, with the same output stream. */
  lemma VcdRoundTrip(s: seq<El>, target: string, timescale: string, date: string, version: string, ts: Timescale,
                     scale: VcdTime.u64, v: word)
    requires AllRegular(s) && 0 < Length(s) <= U32_MAX
    requires PlainNames(target, timescale, date, version) && TimescaleOr(Trim(timescale), START.ts) == Ok(ts)
    requires Matched(Ready(ts), scale)
    ensures Written(s, target, timescale, date, version).Ok? && VcdForm(s).Ok?
    ensures Loaded(Written(s, target, timescale, date, version).value, target, scale) == VcdForm(s)
    ensures Waveform(VcdForm(s).value, v) == Waveform(s, 0) && FullyMerged(VcdForm(s).value)
  {
    ShortForm(s);
    FormShape(s, v);
    LoadsForm(VcdForm(s).value, target, timescale, date, version, ts, scale);
    assert VcdForm(s).value != [];
    MergeShape(Scan.Filter(Emits, Levels(s, 0)));
  }

  lemma TenParses()
    ensures ParseStrictU64("10") == Ok(10)
  {
    assert Print(1, 10) == ['1'] && Print(10, 10) == Print(1, 10) + [Digit(0)] == "10";
    TrimSolid("10");
    NoUnderscores("10");
    DecimalText(10, 0);
  }

  lemma TenPrefix(s: string)
    requires s == "10ns"
    ensures DigitPrefix(s) == 2 && s[..2] == "10" && Lower(s[2..]) == "ns"
  {
    assert s[1..][1..] == "ns" && DigitPrefix(s[1..][1..]) == 0 && DigitPrefix(s[1..]) == 1;
    assert s[2..] == "ns";
  }

  lemma TenSplit(s: string)
    requires s == "10ns"
    ensures Trim(s) == s && SplitTimescale(s) == Ok((10, "ns"))
  {
    TrimSolid(s);
    OneWord(s);
    TenPrefix(s);
    TenParses();
  }

  /** The defaults, "10ns" and a scale of 10, match. */
  lemma DefaultScaleMatches()
    ensures TimescaleOr(Trim("10ns"), START.ts) == Ok(VcdTime.Timescale(10, 1))
    ensures Matched(Ready(VcdTime.Timescale(10, 1)), 10)
  {
    TenSplit("10ns");
  }
}
