/** What each kind of line of a VCD file means to the reader, also those the writer never writes. */
module VcdSyntax {
  import opened Bits
  import opened Wrappers
  import opened Elements
  import opened Chars
  import opened Literals
  import opened NumberSyntax
  import opened VcdReader
  import opened VcdRoundTrip
  import opened VcdScalar
  import VcdTime

  // ----- time units

  /** Femtoseconds per unit, and 0 for what is no unit. */
  ghost function Femtoseconds(unit: string): nat
  {
    if unit == "s" then 1_000_000_000_000_000
    else if unit == "ms" then 1_000_000_000_000
    else if unit == "us" then 1_000_000_000
    else if unit == "ns" then 1_000_000
    else if unit == "ps" then 1_000
    else if unit == "fs" then 1
    else 0
  }

  const SMALL := "abcdefghijklmnopqrstuvwxyz"
  const CAPITAL := "ABCDEFGHIJKLMNOPQRSTUVWXYZ"

  /** Capitals become small letters, and nothing else changes. */
  lemma LowerTable(c: char, k: nat)
    requires k < 26
    ensures LowerChar(CAPITAL[k]) == SMALL[k]
    ensures LowerChar(c) == SMALL[k] <==> c == SMALL[k] || c == CAPITAL[k]
    ensures !('A' <= c <= 'Z') ==> LowerChar(c) == c
  {
  }

  lemma LowerLetters(s: string, k: nat)
    requires k < |s|
    ensures |Lower(s)| == |s| && Lower(s)[k] == LowerChar(s[k])
  {
  }

  /** Numerator over denominator is the time unit in nanoseconds; refused are zero, no unit and too large a product. */
  ghost predicate IsScale(r: Result<Timescale>, n: nat, fs: nat)
  {
    && (r.Ok? ==> r.value.numeratorNs as int * 1_000_000 == n * fs * r.value.denominator as int
                  && r.value.denominator > 0)
    && (r.Err? <==> n == 0 || fs == 0 || n * fs / 1_000_000 >= U64_RANGE)
  }

  lemma UnitValue(text: string, n: nat, unit: string)
    requires SplitTimescale(text) == Ok((n, unit)) && n < U64_RANGE
    ensures IsScale(ParseTimescale(text), n, Femtoseconds(unit))
  {
  }

  lemma {:induction false} DigitRun(d: string, u: string)
    requires IsNumber(d, 10) && (u != [] ==> !('0' <= u[0] <= '9'))
    ensures DigitPrefix(d + u) == |d|
  {
    if d == [] {
      assert d + u == u;
    } else {
      assert d[0] in d;
      assert (d + u)[1..] == d[1..] + u;
      DigitRun(d[1..], u);
    }
  }

  /** A unit as a word that does not begin with a digit. */
  ghost predicate IsUnit(u: string) { IsWord(u) && !('0' <= u[0] <= '9') }

  lemma OneWordSplit(d: string, u: string)
    requires d != [] && IsNumber(d, 10) && IsUnit(u)
    ensures var n := ParseStrictU64(d); SplitTimescale(d + u) == if n.Err? then Err else Ok((n.value, Lower(u)))
  {
    var t := d + u;
    assert forall c :: c in d ==> DigitValue(c) < 10 && !IsSpace(c);
    OneWord(t);
    assert t[0] == d[0] && d[0] in d && t[|t| - 1] == u[|u| - 1] && u[|u| - 1] in u;
    TrimSolid(t);
    DigitRun(d, u);
    assert t[..|d|] == d && t[|d|..] == u;
  }

  lemma TwoWordSplit(d: string, u: string)
    requires d != [] && IsNumber(d, 10) && IsUnit(u)
    ensures var n := ParseStrictU64(d); SplitTimescale(Spaced(d, u)) == if n.Err? then Err else Ok((n.value, Lower(u)))
  {
    assert forall c :: c in d ==> DigitValue(c) < 10 && !IsSpace(c);
    SpacedWords(d, u);
    OneWord(u);
  }

  /** Number and unit, in one word or in two, with the unit in any case. */
  lemma TimescaleText(d: string, u: string, n: nat)
    requires d != [] && IsNumber(d, 10) && IsUnit(u) && Spells(d, n) && n < U64_RANGE
    ensures ParseTimescale(d + u) == ParseTimescale(Spaced(d, u))
    ensures IsScale(ParseTimescale(d + u), n, Femtoseconds(Lower(u)))
  {
    NumberIsPlain(d);
    ParseStrictIff(d, n);
    OneWordSplit(d, u);
    TwoWordSplit(d, u);
    UnitValue(d + u, n, Lower(u));
  }

  // ----- declarations

  /** A timescale spread over lines is the one written on one line. */
  lemma TimescaleLines(r: Reader, payload: string, target: string, scale: VcdTime.u64)
    requires r.inDefinitions && !r.inTimescale && payload != [] && '$' !in payload
    requires !IsSpace(payload[0]) && !IsSpace(payload[|payload| - 1])
    ensures ReadLines(r, ["$timescale", payload, "$end"], target, scale) == WithTimescale(r, payload, false)
    ensures ReadLines(r, ["$timescale " + payload, "$end"], target, scale) == WithTimescale(r, payload, false)
    ensures Step(r, "$timescale " + (payload + " $end"), target, scale) == WithTimescale(r, payload, false)
  {
    OpensTimescale(r, target, scale);
    InTimescale(r.(inTimescale := true), payload, target, scale);
    TimescaleStart(r, payload, target, scale);
    TimescaleWhole(r, payload, target, scale);
    TwoMore(r, "$timescale", payload, "$end", target, scale);
    var ts := WithTimescale(r, payload, true);
    ReadOne(r, "$timescale " + payload, ["$end"], target, scale);
    assert ["$timescale " + payload] + ["$end"] == ["$timescale " + payload, "$end"];
    if ts.Ok? {
      ClosesTimescale(ts.value, target, scale);
      LastLineRead(ts.value, "$end", target, scale);
    }
  }

  lemma LastLineRead(r: Reader, l: string, target: string, scale: VcdTime.u64)
    ensures ReadLines(r, [l], target, scale) == Step(r, l, target, scale)
  {
    ReadOne(r, l, [], target, scale);
    assert [l] + [] == [l];
  }

  lemma TwoMore(r: Reader, a: string, b: string, c: string, target: string, scale: VcdTime.u64)
    requires Step(r, a, target, scale) == Ok(r.(inTimescale := true))
    ensures var next := Step(r.(inTimescale := true), b, target, scale);
      ReadLines(r, [a, b, c], target, scale) == if next.Err? then Err else Step(next.value, c, target, scale)
  {
    var open := r.(inTimescale := true);
    assert [a] + [b, c] == [a, b, c] && [b] + [c] == [b, c];
    ReadOne(r, a, [b, c], target, scale);
    ReadOne(open, b, [c], target, scale);
    var next := Step(open, b, target, scale);
    if next.Ok? { LastLineRead(next.value, c, target, scale); }
  }

  lemma {:induction false} NoEndMarker(s: string)
    requires '$' !in s
    ensures EndMarker(s) == None
  {
    if |s| >= 4 {
      assert s[..4][0] == s[0] && s[0] in s;
      NoEndMarker(s[1..]);
    }
  }

  lemma OpensTimescale(r: Reader, target: string, scale: VcdTime.u64)
    requires r.inDefinitions && !r.inTimescale
    ensures Step(r, "$timescale", target, scale) == Ok(r.(inTimescale := true))
  {
    var l := "$timescale";
    TrimSolid(l);
    assert l[10..] == "" && EndMarker("") == None;
  }

  lemma InTimescale(r: Reader, payload: string, target: string, scale: VcdTime.u64)
    requires r.inDefinitions && r.inTimescale && payload != [] && '$' !in payload
    requires !IsSpace(payload[0]) && !IsSpace(payload[|payload| - 1])
    ensures Step(r, payload, target, scale) == WithTimescale(r, payload, true)
    ensures var next := Step(r, payload, target, scale);
      (if next.Err? then Err else Step(next.value, "$end", target, scale))
      == WithTimescale(r.(inTimescale := false), payload, false)
  {
    TrimSolid(payload);
    NoEndMarker(payload);
    assert payload != "$end" by { assert payload[0] in payload; }
    var next := WithTimescale(r, payload, true);
    if next.Ok? { ClosesTimescale(next.value, target, scale); }
  }

  lemma ClosesTimescale(r: Reader, target: string, scale: VcdTime.u64)
    requires r.inDefinitions && r.inTimescale
    ensures Step(r, "$end", target, scale) == Ok(r.(inTimescale := false))
  {
    TrimSolid("$end");
    assert "$end"[..4] == "$end" && "$end"[..0] == "";
  }

  lemma TimescaleStart(r: Reader, payload: string, target: string, scale: VcdTime.u64)
    requires r.inDefinitions && !r.inTimescale && payload != [] && '$' !in payload
    requires !IsSpace(payload[0]) && !IsSpace(payload[|payload| - 1])
    ensures Step(r, "$timescale " + payload, target, scale) == WithTimescale(r, payload, true)
  {
    var l := "$timescale " + payload;
    assert l[0] == '$' && l[|l| - 1] == payload[|payload| - 1];
    TrimSolid(l);
    assert l[..10] == "$timescale" && l[10..] == " " + payload;
    assert (" " + payload)[1..] == payload;
    TrimSolid(payload);
    assert TrimLeft(" " + payload) == TrimLeft(payload) == payload;
    assert Trim(" " + payload) == payload;
    NoEndMarker(payload);
  }

  lemma TimescaleWhole(r: Reader, payload: string, target: string, scale: VcdTime.u64)
    requires r.inDefinitions && !r.inTimescale && payload != [] && '$' !in payload
    requires !IsSpace(payload[0]) && !IsSpace(payload[|payload| - 1])
    ensures Step(r, "$timescale " + (payload + " $end"), target, scale) == WithTimescale(r, payload, false)
  {
    var l := "$timescale" + (" " + (payload + " $end"));
    assert l == "$timescale " + (payload + " $end");
    assert l[0] == '$' && l[|l| - 1] == 'd';
    assert l[..10] == "$timescale" && l[10..] == " " + (payload + " $end");
    TrimSolid(l);
    TrimSolid(payload);
    TimescalePayload(payload);
  }

  /** A declaration of at least six words names the signal in its fifth and its identifier in its fourth. */
  lemma DeclaresSignal(r: Reader, l: string, ws: seq<string>, target: string, scale: VcdTime.u64)
    requires r.inDefinitions && !r.inTimescale && Trim(l) == l && Words(l) == ws && StartsWith(l, "$var")
    ensures Step(r, l, target, scale)
      == Ok(if |ws| > 5 && ws[0] == "$var" && ws[4] == target then r.(id := ws[3]) else r)
  {
    assert l[1] == 'v' by { assert l[..4][1] == 'v'; }
    NotStarting(l, "$timescale", 1);
  }

  /** Every other line before the end of the declarations says nothing. */
  lemma OtherDeclarations(r: Reader, l: string, target: string, scale: VcdTime.u64)
    requires r.inDefinitions && !r.inTimescale
    requires var t := Trim(l); !StartsWith(t, "$timescale") && !StartsWith(t, "$var") && t != "$enddefinitions $end"
    ensures Step(r, l, target, scale) == Ok(r)
  {
  }

  lemma BlankLines(r: Reader, l: string, target: string, scale: VcdTime.u64)
    requires forall i :: 0 <= i < |l| ==> IsSpace(l[i])
    ensures Step(r, l, target, scale) == Ok(r)
  {
    AllBlank(l);
  }

  lemma {:induction false} AllBlank(l: string)
    requires forall i :: 0 <= i < |l| ==> IsSpace(l[i])
    ensures TrimLeft(l) == []
  {
    if l != [] { AllBlank(l[1..]); }
  }

  // ----- changes

  /** Commands among the changes, and everything before the signal is known, say nothing. */
  lemma CommandsIgnored(r: Reader, l: string, target: string, scale: VcdTime.u64)
    requires !r.inDefinitions && Trim(l) == l && l != []
    requires l[0] == '$' || (r.id == [] && l[0] != '#')
    ensures Step(r, l, target, scale) == Ok(r)
  {
  }

  /** The time of the changes that follow: digits, scaled, and never earlier than before. */
  lemma ReadsMoment(r: Reader, d: string, n: nat, target: string, scale: VcdTime.u64)
    requires !r.inDefinitions && d != [] && PlainText(d) && Digits(d, 10, n)
    ensures Step(r, "#" + d, target, scale)
      == if n < U64_RANGE && VcdTime.Scaled(n as VcdTime.u64, scale, r.ts).Ok?
            && r.time <= VcdTime.Scaled(n as VcdTime.u64, scale, r.ts).value as int
         then Ok(r.(time := VcdTime.Scaled(n as VcdTime.u64, scale, r.ts).value as int))
         else Err
  {
    var l := "#" + d;
    assert l[|l| - 1] == d[|d| - 1] && l[1..] == d;
    TrimSolid(l);
    StrToULLBaseIff(d, 10, n);
    if StrToULL(d, 10).Ok? { StrToULLBaseIff(d, 10, StrToULL(d, 10).value); }
  }

  lemma RefusedMoment(r: Reader, d: string, target: string, scale: VcdTime.u64)
    requires !r.inDefinitions && d != [] && PlainText(d) && forall n :: !Digits(d, 10, n)
    ensures Step(r, "#" + d, target, scale).Err?
  {
    var l := "#" + d;
    assert l[|l| - 1] == d[|d| - 1] && l[1..] == d;
    TrimSolid(l);
    if StrToULL(d, 10).Ok? { StrToULLBaseIff(d, 10, StrToULL(d, 10).value); }
  }

  lemma VectorSplit(b: char, digits: string, id: string)
    requires (b == 'b' || b == 'B') && PlainText(digits) && IsWord(id)
    ensures var t := Spaced([b] + digits, id);
      Trim(t) == t && t != [] && t[0] == b && Words(t) == [[b] + digits, id]
  {
    var w := [b] + digits;
    var t := Spaced(w, id);
    forall c | c in w ensures !IsSpace(c) {
      var i :| 0 <= i < |w| && w[i] == c;
      if i > 0 { assert Ordinary(digits[i - 1]); }
    }
    assert IsWord(w);
    assert t[0] == w[0] == b && t[|t| - 1] == id[|id| - 1] && id[|id| - 1] in id;
    TrimSolid(t);
    SpacedWords(w, id);
    OneWord(id);
  }

  lemma VectorChange(r: Reader, b: char, digits: string, id: string, target: string, scale: VcdTime.u64)
    requires !r.inDefinitions && (b == 'b' || b == 'B') && PlainTail(digits) && IsWord(id)
    ensures Step(r, Spaced([b] + digits, id), target, scale)
      == if r.id == id then Changed(r, VerilogInt("'" + Tail("", b, digits))) else Ok(r)
  {
    var t := Spaced([b] + digits, id);
    VectorSplit(b, digits, id);
    assert [b] + digits == Tail("", b, digits);
    ChangeLine(r, t, target, scale);
    ChangeOfWords(r, t, [b] + digits, id);
  }

  lemma ChangeLine(r: Reader, t: string, target: string, scale: VcdTime.u64)
    requires !r.inDefinitions && Trim(t) == t && t != [] && t[0] != '#'
    ensures Step(r, t, target, scale) == ValueChange(r, t)
  {
  }

  lemma ChangeOfWords(r: Reader, t: string, w: string, id: string)
    requires t != [] && (t[0] == 'b' || t[0] == 'B') && Words(t) == [w, id] && id != []
    ensures ValueChange(r, t) == if r.id == id then Changed(r, VerilogInt("'" + w)) else Ok(r)
  {
  }

  lemma BinaryLiteral(b: char, digits: string, n: nat)
    requires (b == 'b' || b == 'B') && PlainTail(digits) && Digits(digits, 2, n)
    ensures VerilogInt("'" + Tail("", b, digits)) == if n < U64_RANGE then Ok(n) else Err
  {
    var v := VerilogInt("'" + Tail("", b, digits));
    UnsizedLiteralIff("", b, digits, 2, n);
    if v.Ok? { UnsizedLiteralIff("", b, digits, 2, v.value); }
  }

  /** A vector change records the number that its binary digits spell, if that fits 32 bits. */
  lemma ReadsVector(r: Reader, b: char, digits: string, id: string, n: nat, target: string, scale: VcdTime.u64)
    requires !r.inDefinitions && (b == 'b' || b == 'B') && PlainTail(digits) && IsWord(id) && Digits(digits, 2, n)
    ensures Step(r, Spaced([b] + digits, id), target, scale)
      == if r.id != id then Ok(r)
         else if n <= U32_MAX then Ok(r.(updates := r.updates + [Update(WordOf(n), r.time)]))
         else Err
  {
    VectorChange(r, b, digits, id, target, scale);
    BinaryLiteral(b, digits, n);
  }

  /** Any other digits are refused. */
  lemma RefusedVector(r: Reader, b: char, digits: string, target: string, scale: VcdTime.u64)
    requires !r.inDefinitions && (b == 'b' || b == 'B') && PlainTail(digits) && IsWord(r.id)
    requires forall n :: !Digits(digits, 2, n)
    ensures Step(r, Spaced([b] + digits, r.id), target, scale).Err?
  {
    var v := VerilogInt("'" + Tail("", b, digits));
    VectorChange(r, b, digits, r.id, target, scale);
    if v.Ok? { UnsizedLiteralIff("", b, digits, 2, v.value); }
  }

  /** A file without a change of the signal is refused; otherwise the changes are closed at the last time. */
  lemma ClosesChanges(r: Reader)
    ensures Closed(Ok(r)).Err? <==> r.id == "" || |r.updates| == 0
    ensures Closed(Ok(r)).Ok? ==>
      var l := Closed(Ok(r)).value;
      |l| == |r.updates| + 1 && l[|l| - 1].count == r.time && forall i :: 0 <= i < |r.updates| ==> l[i] == r.updates[i]
  {
  }

  /** Times that go back are refused ... */
  lemma {:induction false} OrderedTimes(l: seq<Update>)
    ensures Between(l).Ok? <==> forall i :: 0 <= i < |l| - 1 ==> l[i].count <= l[i + 1].count
  {
    if |l| > 1 {
      OrderedTimes(l[1..]);
      assert forall i :: 0 <= i < |l| - 1 ==> l[1..][i] == l[i + 1];
    }
  }

  /** ... and each element lasts from its change to the next. */
  lemma {:induction false} ElementsBetween(l: seq<Update>, i: nat)
    requires Between(l).Ok? && i + 1 < |l|
    ensures |Between(l).value| == |l| - 1
    ensures l[i].count <= l[i + 1].count && Between(l).value[i] == Load(l[i + 1].count - l[i].count, l[i].value)
  {
    LengthBetween(l);
    if i > 0 { ElementsBetween(l[1..], i - 1); }
  }

  lemma {:induction false} LengthBetween(l: seq<Update>)
    requires Between(l).Ok? && l != []
    ensures |Between(l).value| == |l| - 1
  {
    if |l| > 1 { LengthBetween(l[1..]); }
  }
}
