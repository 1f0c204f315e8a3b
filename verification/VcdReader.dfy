/** Reading value changes from a VCD file, line by line. */
module VcdReader {
  import opened Bits
  import opened Wrappers
  import opened Elements
  import opened Chars
  import opened Literals
  import VcdTime

  type Timescale = VcdTime.Timescale

  /** A value of the signal and the clock period at which it starts. */
  datatype Update = Update(value: word, count: u32)

  // ----- timescale

  function LowerChar(c: char): char { if 'A' <= c <= 'Z' then (c as int + 32) as char else c }
  function Lower(s: string): string { seq(|s|, i requires 0 <= i < |s| => LowerChar(s[i])) }

  function DigitPrefix(s: string): (n: nat)
    ensures n <= |s|
  {
    if s != [] && '0' <= s[0] <= '9' then 1 + DigitPrefix(s[1..]) else 0
  }

  /** Multiplier and unit: one word such as "10ns", or two. */
  function SplitTimescale(text: string): Result<(nat, string)>
  {
    var words := Words(text);
    if |words| == 1 then
      var value := Trim(words[0]);
      var i := DigitPrefix(value);
      if i == 0 || i == |value| then Err
      else
        var n := ParseStrictU64(value[..i]);
        if n.Err? then Err else Ok((n.value, Lower(value[i..])))
    else if |words| == 2 then
      var n := ParseStrictU64(words[0]);
      if n.Err? then Err else Ok((n.value, Lower(words[1])))
    else Err
  }

  function Nanoseconds(n: nat, factor: VcdTime.u64, denominator: VcdTime.u64): Result<Timescale>
    requires n < U64_RANGE
  {
    var p := VcdTime.CheckedMul(n as VcdTime.u64, factor);
    if p.Err? then Err else Ok(VcdTime.Timescale(p.value, denominator))
  }

  /** What a multiplier and a unit come to. */
  function ScaleOf(parts: Result<(nat, string)>): Result<Timescale>
  {
    if parts.Err? || parts.value.0 == 0 || parts.value.0 >= U64_RANGE then Err
    else
      var (n, unit) := parts.value;
      if unit == "s" then Nanoseconds(n, 1000000000, 1)
      else if unit == "ms" then Nanoseconds(n, 1000000, 1)
      else if unit == "us" then Nanoseconds(n, 1000, 1)
      else if unit == "ns" then Nanoseconds(n, 1, 1)
      else if unit == "ps" then Nanoseconds(n, 1, 1000)
      else if unit == "fs" then Nanoseconds(n, 1, 1000000)
      else Err
  }

  function ParseTimescale(text: string): Result<Timescale> { ScaleOf(SplitTimescale(text)) }

  /** Where "$end" first occurs. */
  function EndMarker(s: string): (r: Option<nat>)
    ensures r.Some? ==> r.value <= |s|
  {
    if |s| < 4 then None
    else if s[..4] == "$end" then Some(0)
    else
      var r := EndMarker(s[1..]);
      if r.None? then None else Some(1 + r.value)
  }

  /** The text before "$end", and whether it was there. */
  function StripEnd(text: string): (string, bool)
  {
    var e := EndMarker(text);
    if e.None? then (Trim(text), false) else (Trim(text[..e.value]), true)
  }

  /** An empty payload leaves the timescale as it was. */
  function TimescaleOr(payload: string, current: Timescale): Result<Timescale>
  {
    if payload == [] then Ok(current) else ParseTimescale(payload)
  }

  // ----- lines

  datatype Reader = Reader(id: string, inDefinitions: bool, inTimescale: bool, ts: Timescale, time: u32,
                           updates: seq<Update>)

  const START: Reader := Reader("", true, false, VcdTime.Timescale(1, 1), 0, [])

  predicate StartsWith(s: string, prefix: string) { |s| >= |prefix| && s[..|prefix|] == prefix }

  function WithTimescale(r: Reader, payload: string, open: bool): Result<Reader>
  {
    var ts := TimescaleOr(payload, r.ts);
    if ts.Err? then Err else Ok(r.(ts := ts.value, inTimescale := open))
  }

  /** A line of the declarations. */
  function Declaration(r: Reader, t: string, target: string): Result<Reader>
  {
    if r.inTimescale then
      var (payload, ended) := StripEnd(t);
      WithTimescale(r, payload, !(ended || t == "$end"))
    else if StartsWith(t, "$timescale") then
      var (payload, ended) := StripEnd(Trim(t[10..]));
      WithTimescale(r, payload, !ended)
    else if StartsWith(t, "$var") then
      var words := Words(t);
      if |words| >= 6 && words[0] == "$var" && words[4] == target then Ok(r.(id := words[3])) else Ok(r)
    else if t == "$enddefinitions $end" then Ok(r.(inDefinitions := false))
    else Ok(r)
  }

  function Changed(r: Reader, v: Result<nat>): Result<Reader>
  {
    if v.Err? || v.value > 0xFFFF_FFFF then Err else Ok(r.(updates := r.updates + [Update(WordOf(v.value), r.time)]))
  }

  /** A line after the declarations that is not a timestamp. */
  function ValueChange(r: Reader, t: string): Result<Reader>
    requires t != []
  {
    if t[0] == '$' || r.id == [] then Ok(r)
    else if t[0] == 'b' || t[0] == 'B' then
      var words := Words(t);
      if |words| >= 2 && words[1] == r.id then Changed(r, VerilogInt("'" + words[0])) else Ok(r)
    else if |t| >= 2 && t[1..] == r.id then
      if t[0] == '0' then Changed(r, Ok(0)) else if t[0] == '1' then Changed(r, Ok(1)) else Err
    else Ok(r)
  }

  /** The clock period a timestamp line names. */
  ghost function Timestamp(t: string, scale: VcdTime.u64, ts: Timescale): (r: Result<u32>)
    requires t != []
  {
    var v := StrToULL(t[1..], 10);
    if v.Err? then Err
    else
      var p := VcdTime.Scaled(v.value as VcdTime.u64, scale, ts);
      if p.Err? then Err else Ok(p.value as int)
  }

  ghost function Moment(r: Reader, time: Result<u32>): Result<Reader>
  {
    if time.Err? || time.value < r.time then Err else Ok(r.(time := time.value))
  }

  ghost function Step(r: Reader, line: string, target: string, scale: VcdTime.u64): Result<Reader>
  {
    var t := Trim(line);
    if t == [] then Ok(r)
    else if r.inDefinitions then Declaration(r, t, target)
    else if t[0] == '#' then Moment(r, Timestamp(t, scale, r.ts))
    else ValueChange(r, t)
  }

  ghost function ReadLines(r: Reader, ls: seq<string>, target: string, scale: VcdTime.u64): Result<Reader>
    decreases ls
  {
    if ls == [] then Ok(r)
    else
      var next := Step(r, ls[0], target, scale);
      if next.Err? then Err else ReadLines(next.value, ls[1..], target, scale)
  }

  lemma {:induction false} ReadConcat(r: Reader, a: seq<string>, b: seq<string>, target: string, scale: VcdTime.u64)
    ensures var m := ReadLines(r, a, target, scale);
      ReadLines(r, a + b, target, scale) == if m.Err? then Err else ReadLines(m.value, b, target, scale)
    decreases a
  {
    if a == [] {
      assert a + b == b;
    } else {
      assert (a + b)[0] == a[0] && (a + b)[1..] == a[1..] + b;
      var next := Step(r, a[0], target, scale);
      if next.Ok? { ReadConcat(next.value, a[1..], b, target, scale); }
    }
  }

  /** The value changes of the target signal, with a closing one at the last timestamp. */
  ghost function Closed(r: Result<Reader>): Result<seq<Update>>
  {
    if r.Err? || r.value.id == [] || r.value.updates == [] then Err
    else Ok(r.value.updates + [Update(0, r.value.time)])
  }

  ghost function Updates(text: string, target: string, scale: VcdTime.u64): Result<seq<Update>>
  {
    Closed(ReadLines(START, Lines(text), target, scale))
  }

  method ParseTimestamp(t: string, scale: VcdTime.u64, ts: Timescale) returns (r: Result<u32>)
    requires t != [] && scale <= 0xFFFF_FFFF
    ensures r == Timestamp(t, scale, ts)
  {
    var v := StrToULL(t[1..], 10);
    if v.Err? { return Err; }
    var p := VcdTime.ScaleTimestamp(v.value as VcdTime.u64, scale, ts);
    if p.Err? { return Err; }
    return Ok(p.value as int);
  }

  method HandleLine(r: Reader, line: string, target: string, scale: VcdTime.u64) returns (next: Result<Reader>)
    requires scale <= 0xFFFF_FFFF
    ensures next == Step(r, line, target, scale)
  {
    var t := Trim(line);
    if t == [] { return Ok(r); }
    if r.inDefinitions { return Declaration(r, t, target); }
    if t[0] == '#' {
      var time := ParseTimestamp(t, scale, r.ts);
      if time.Err? || time.value < r.time { return Err; }
      return Ok(r.(time := time.value));
    }
    return ValueChange(r, t);
  }

  /** `parseVcdUpdates`. */
  method ParseVcdUpdates(text: string, target: string, scale: VcdTime.u64) returns (res: Result<seq<Update>>)
    requires scale <= 0xFFFF_FFFF
    ensures res == Updates(text, target, scale)
  {
    var ls := Lines(text);
    var r := START;
    for i := 0 to |ls|
      invariant ReadLines(START, ls, target, scale) == ReadLines(r, ls[i..], target, scale)
    {
      var next := HandleLine(r, ls[i], target, scale);
      if next.Err? { return Err; }
      assert ls[i..][1..] == ls[i + 1..];
      r := next.value;
    }
    if r.id == [] || r.updates == [] { return Err; }
    return Ok(r.updates + [Update(0, r.time)]);
  }

  // ----- elements between value changes

  ghost function Between(l: seq<Update>): Result<seq<El>>
  {
    if |l| < 2 then Ok([])
    else if l[1].count < l[0].count then Err
    else
      var rest := Between(l[1..]);
      if rest.Err? then Err else Ok([Load(l[1].count - l[0].count, l[0].value)] + rest.value)
  }

  ghost function ElementsOf(l: Result<seq<Update>>): Result<seq<El>> { if l.Err? then Err else Between(l.value) }

  /** What a file loads as. */
  ghost function Loaded(text: string, target: string, scale: VcdTime.u64): Result<seq<El>>
  {
    ElementsOf(Updates(text, target, scale))
  }

  ghost function Following(done: seq<El>, rest: Result<seq<El>>): Result<seq<El>>
  {
    if rest.Err? then Err else Ok(done + rest.value)
  }

  /** `load_VCD`, on an empty sequence. */
  method LoadVcd(text: string, target: string, scale: VcdTime.u64) returns (res: Result<seq<El>>)
    requires scale <= 0xFFFF_FFFF
    ensures res == Loaded(text, target, scale)
  {
    var l := ParseVcdUpdates(text, target, scale);
    if l.Err? { return Err; }
    res := Differences(l.value);
  }

  method Differences(l: seq<Update>) returns (res: Result<seq<El>>)
    ensures res == Between(l)
  {
    var s: seq<El>, i := [], 0;
    assert l[0..] == l && (Between(l).Ok? ==> [] + Between(l).value == Between(l).value);
    while i + 1 < |l|
      invariant 0 <= i <= |l| && Between(l) == Following(s, Between(l[i..]))
    {
      if l[i + 1].count < l[i].count { return Err; }
      var e := Load(l[i + 1].count - l[i].count, l[i].value);
      assert l[i..][1..] == l[i + 1..];
      ghost var rest := Between(l[i + 1..]);
      if rest.Ok? { assert s + ([e] + rest.value) == s + [e] + rest.value; }
      s := s + [e];
      i := i + 1;
    }
    assert s + [] == s;
    return Ok(s);
  }
}
