/** Value changes of one bit: `1!` says what `b1 !` says, and a file of such lines loads like any other. */
module VcdScalar {
  import opened Bits
  import opened Wrappers
  import opened Elements
  import opened PulseSequence
  import opened Chars
  import opened Literals
  import opened VcdReader
  import opened VcdWriter
  import opened VcdRoundTrip
  import VcdTime

  function ScalarLine(d: char, id: string): string { [d] + id }
  function VectorLine(digits: string, id: string): string { Spaced("b" + digits, id) }

  /** Characters that do not make the line something else than a value change. */
  predicate IsValueChar(d: char) { d != '$' && d != '#' && d != 'b' && d != 'B' && !IsSpace(d) }

  // ----- a single digit as a literal

  lemma OneDigit(d: char)
    ensures ([d])[..0] == [] && IsBased([d], 2) <==> DigitValue(d) < 2 || UnknownDigit(d)
    ensures Known([d], 2) == if UnknownDigit(d) then 0 else DigitValue(d)
    ensures Unknown([d], 2) == if UnknownDigit(d) then 1 else 0
  {
    assert ([d])[..0] == [];
  }

  lemma BitDigits(d: char)
    ensures DigitValue(d) == 0 <==> d == '0'
    ensures DigitValue(d) == 1 <==> d == '1'
  {
  }

  lemma OneDigitBody(d: char)
    requires d != '\''
    ensures QuotedValue("'b" + [d], 0) == if d == '0' then Ok(0) else if d == '1' then Ok(1) else Err
  {
    var t := "'b" + [d];
    assert t[1..] == ['b', d] && t[1..][1..] == [d];
    OneDigit(d);
    BitDigits(d);
  }

  lemma QuoteFirst(t: string)
    requires t != [] && t[0] == '\''
    ensures Find('\'', t) == 0
  {
  }

  /** A binary literal of one character is 0 or 1, or it is refused. */
  lemma OneDigitLiteral(d: char)
    requires !IsSpace(d)
    ensures VerilogInt("'b" + [d]) == if d == '0' then Ok(0) else if d == '1' then Ok(1) else Err
  {
    var t := "'b" + [d];
    TrimSolid(t);
    QuoteFirst(t);
    if d == '_' {
      assert t == "'b_" && WithoutUnderscores("_") == [] && WithoutUnderscores("b_") == "b";
      assert t[1..] == "b_" && t[1..][1..] == "_";
      assert WithoutUnderscores(t) == "'b";
      QuoteFirst("'b");
      assert "'b"[1..] == "b" && "b"[1..] == [];
    } else {
      NoUnderscores(t);
      if d == '\'' {
        assert t[1..][1] == '\'';
      } else {
        OneDigitBody(d);
      }
    }
  }

  // ----- lines

  lemma ScalarText(d: char, id: string)
    requires !IsSpace(d) && IsWord(id)
    ensures var t := ScalarLine(d, id); Trim(t) == t && |t| >= 2 && t[0] == d && t[1..] == id
  {
    var t := ScalarLine(d, id);
    assert t[|t| - 1] == id[|id| - 1] && id[|id| - 1] in id;
    TrimSolid(t);
  }

  lemma VectorText(digits: string, id: string)
    requires NoSpace(digits) && IsWord(id)
    ensures var t := VectorLine(digits, id); Trim(t) == t && t != [] && t[0] == 'b' && Words(t) == ["b" + digits, id]
  {
    var w, t := "b" + digits, VectorLine(digits, id);
    assert w[0] == 'b' && forall c :: c in w ==> c == 'b' || c in digits;
    assert IsWord(w);
    assert t[|t| - 1] == id[|id| - 1] && id[|id| - 1] in id;
    TrimSolid(t);
    SpacedWords(w, id);
    OneWord(id);
  }

  /** What a scalar line does, said without the reader. */
  ghost function BitNoted(r: Reader, d: char, id: string): Result<Reader>
  {
    if r.id != id then Ok(r)
    else if d == '0' then Ok(r.(updates := r.updates + [Update(0, r.time)]))
    else if d == '1' then Ok(r.(updates := r.updates + [Update(1, r.time)]))
    else Err
  }

  lemma SmallWords()
    ensures WordOf(0) == 0 && WordOf(1) == 1
  {
  }

  lemma ReadsScalar(r: Reader, d: char, id: string, target: string, scale: VcdTime.u64)
    requires !r.inDefinitions && IsValueChar(d) && IsWord(id)
    ensures Step(r, ScalarLine(d, id), target, scale) == BitNoted(r, d, id)
  {
    ScalarText(d, id);
    SmallWords();
  }

  lemma ReadsBitVector(r: Reader, d: char, id: string, target: string, scale: VcdTime.u64)
    requires !r.inDefinitions && !IsSpace(d) && IsWord(id)
    ensures Step(r, VectorLine([d], id), target, scale) == BitNoted(r, d, id)
  {
    VectorText([d], id);
    assert "'" + ("b" + [d]) == "'b" + [d];
    OneDigitLiteral(d);
    SmallWords();
  }

  /** A scalar line and the one-bit vector line lead to the same reader, or fail together. */
  lemma ScalarIsVector(r: Reader, d: char, id: string, target: string, scale: VcdTime.u64)
    requires !r.inDefinitions && IsValueChar(d) && IsWord(id)
    ensures Step(r, ScalarLine(d, id), target, scale) == Step(r, VectorLine([d], id), target, scale)
    ensures Step(r, ScalarLine(d, id), target, scale) == BitNoted(r, d, id)
  {
    ReadsScalar(r, d, id, target, scale);
    ReadsBitVector(r, d, id, target, scale);
  }

  // ----- a file of scalar changes

  function BitLine(w: word): string { ScalarLine(if w == 1 then '1' else '0', "!") }

  predicate AllBits(s: seq<El>) { forall i :: 0 <= i < |s| ==> s[i].value == 0 || s[i].value == 1 }

  /** The changes of a sequence, written as scalars. */
  ghost function BitChanges(s: seq<El>, t: nat): seq<string>
    decreases s
  {
    if s == [] then [TimeLine(t)]
    else [TimeLine(t), BitLine(s[0].value)] + BitChanges(s[1..], t + s[0].count)
  }

  ghost function BitFile(f: seq<El>, target: string, timescale: string, date: string, version: string): string
  {
    Unlines(Declarations(target, timescale, date, version) + BitChanges(f, 0))
  }

  lemma ReadsBit(r: Reader, w: word, target: string, scale: VcdTime.u64)
    requires !r.inDefinitions && r.id == "!" && (w == 0 || w == 1)
    ensures Step(r, BitLine(w), target, scale) == Ok(r.(updates := r.updates + [Update(w, r.time)]))
  {
    ReadsScalar(r, if w == 1 then '1' else '0', "!", target, scale);
  }

  lemma BitLineText(w: word)
    ensures IsLine(BitLine(w))
  {
  }

  lemma {:induction false} BitChangeLines(s: seq<El>, t: nat)
    ensures forall l :: l in BitChanges(s, t) ==> IsLine(l)
    decreases s
  {
    TimeLineText(t);
    if s != [] {
      BitLineText(s[0].value);
      BitChangeLines(s[1..], t + s[0].count);
    }
  }

  lemma ReadsBitPair(r: Reader, w: word, t: nat, rest: seq<string>, target: string, scale: VcdTime.u64)
    requires Matched(r, scale) && r.time <= t < U64_RANGE && (w == 0 || w == 1)
    ensures ReadLines(r, [TimeLine(t), BitLine(w)] + rest, target, scale)
      == if t > U32_MAX then Err else ReadLines(WithUpdate(r, w, t), rest, target, scale)
  {
    var tail := [BitLine(w)] + rest;
    assert [TimeLine(t), BitLine(w)] + rest == [TimeLine(t)] + tail;
    ReadOne(r, TimeLine(t), tail, target, scale);
    ReadsTime(r, t, target, scale);
    if t <= U32_MAX {
      ReadOne(r.(time := t), BitLine(w), rest, target, scale);
      ReadsBit(r.(time := t), w, target, scale);
    }
  }

  lemma {:induction false} ReadsBitChanges(r: Reader, s: seq<El>, t: nat, target: string, scale: VcdTime.u64)
    requires Matched(r, scale) && r.time <= t && AllPlain(s) && AllBits(s) && t + Length(s) < U64_RANGE
    ensures ReadLines(r, BitChanges(s, t), target, scale) == AtEnd(r, s, t)
    decreases s
  {
    if s == [] {
      ReadsEnd(r, t, target, scale);
      assert BitChanges([], t) == Changes([], t);
    } else {
      PlainRest(s);
      PlainIsRegular(s[0]);
      ReadsBitPair(r, s[0].value, t, BitChanges(s[1..], t + s[0].count), target, scale);
      if t <= U32_MAX {
        ReadsBitChanges(WithUpdate(r, s[0].value, t), s[1..], t + s[0].count, target, scale);
        AtEndStep(r, s, t);
      }
    }
  }

  lemma ReadsBitFile(f: seq<El>, target: string, timescale: string, date: string, version: string, ts: Timescale,
                     scale: VcdTime.u64)
    requires PlainNames(target, timescale, date, version) && TimescaleOr(Trim(timescale), START.ts) == Ok(ts)
    ensures ReadLines(START, Lines(BitFile(f, target, timescale, date, version)), target, scale)
      == ReadLines(Ready(ts), BitChanges(f, 0), target, scale)
  {
    var head := Declarations(target, timescale, date, version);
    DeclarationLines(target, timescale, date, version);
    BitChangeLines(f, 0);
    LinesRoundTrip(head + BitChanges(f, 0));
    ReadsHead(target, timescale, date, version, ts, BitChanges(f, 0), scale);
  }

  /** A file whose changes are scalars loads as the sequence of zeros and ones it spells. */
  lemma LoadsBits(f: seq<El>, target: string, timescale: string, date: string, version: string, ts: Timescale,
                  scale: VcdTime.u64)
    requires PlainNames(target, timescale, date, version) && TimescaleOr(Trim(timescale), START.ts) == Ok(ts)
    requires Matched(Ready(ts), scale) && AllPlain(f) && AllBits(f) && f != [] && Length(f) < U64_RANGE
    ensures Loaded(BitFile(f, target, timescale, date, version), target, scale)
      == if Length(f) <= U32_MAX then Ok(f) else Err
  {
    ReadsBitFile(f, target, timescale, date, version, ts, scale);
    ReadsBitChanges(Ready(ts), f, 0, target, scale);
    PointElements(ts, f);
  }
}
