/** The number syntaxes accepted in sequence files, command options and VCD value changes. */
module Literals {
  import opened Wrappers
  import opened Chars

  function Pow2(n: nat): (p: nat)
    ensures p > 0
  {
    if n == 0 then 1 else 2 * Pow2(n - 1)
  }

  // ----- SystemVerilog literals

  predicate UnknownDigit(c: char) { c == 'x' || c == 'X' || c == 'z' || c == 'Z' || c == '?' }

  predicate IsBased(s: string, base: nat)
  {
    forall c :: c in s ==> DigitValue(c) < base || (base != 10 && UnknownDigit(c))
  }

  /** The known bits of a based literal; unknown digits contribute zeros. */
  function Known(s: string, base: nat): nat
  {
    if s == [] then 0
    else Known(s[..|s| - 1], base) * base + if UnknownDigit(s[|s| - 1]) then 0 else DigitValue(s[|s| - 1])
  }

  /** The bits covered by unknown digits. */
  function Unknown(s: string, base: nat): nat
    requires base > 0
  {
    if s == [] then 0
    else Unknown(s[..|s| - 1], base) * base + if UnknownDigit(s[|s| - 1]) then base - 1 else 0
  }

  function WordCount(v: nat): nat { if v == 0 then 0 else 1 + WordCount(v / 0x1_0000_0000_0000_0000) }

  /** The bits `mask_to_width` keeps: it drops words above the width and masks the last word left. */
  function KeptBits(words: nat, width: nat): nat
  {
    var keep := (width + 63) / 64;
    var left := if words > keep then keep else words;
    if left == 0 then 0 else if width % 64 != 0 then 64 * (left - 1) + width % 64 else 64 * left
  }

  function MaskToWidth(v: nat, width: nat): nat { v % Pow2(KeptBits(WordCount(v), width)) }

  lemma SmallModulo(v: nat, p: nat)
    requires v < p
    ensures v % p == v
  {
  }

  lemma ModuloBelow(v: nat, p: nat)
    requires p > 0 && v % p == v
    ensures v < p
  {
  }

  lemma {:induction false} Pow2Sum(a: nat, b: nat)
    ensures Pow2(a + b) == Pow2(a) * Pow2(b)
  {
    if a > 0 {
      Pow2Sum(a - 1, b);
      Doubled(Pow2(a - 1), Pow2(b));
    }
  }

  lemma Doubled(x: nat, y: nat)
    ensures 2 * (x * y) == (2 * x) * y
  {
  }

  lemma Squared(n: nat, p: nat)
    requires Pow2(n) == p
    ensures Pow2(2 * n) == p * p
  {
    Pow2Sum(n, n);
  }

  lemma Pow32()
    ensures Pow2(32) == 0x1_0000_0000
  {
    assert Pow2(4) == 0x10;
    Squared(4, 0x10);
    Squared(8, 0x100);
    Squared(16, 0x1_0000);
  }

  lemma Pow64()
    ensures Pow2(64) == 0x1_0000_0000_0000_0000
  {
    Pow32();
    Squared(32, 0x1_0000_0000);
  }

  /** A number lies below the power of two its words can hold. */
  lemma {:induction false} WordCountBound(v: nat)
    ensures v < Pow2(64 * WordCount(v))
  {
    if v > 0 {
      var q := v / 0x1_0000_0000_0000_0000;
      WordCountBound(q);
      Pow64();
      Pow2Sum(64 * WordCount(q), 64);
      assert WordCount(v) == 1 + WordCount(q);
      assert 64 * WordCount(v) == 64 * WordCount(q) + 64;
      assert v < (q + 1) * 0x1_0000_0000_0000_0000;
    }
  }

  /** With all words of the width present, or no partial word, the bits kept are those of the width. */
  lemma KeptWidth(words: nat, width: nat)
    ensures words >= (width + 63) / 64 ==> KeptBits(words, width) == width
    ensures words < (width + 63) / 64 ==> 64 * words <= width && KeptBits(words, width) <= 64 * words
    ensures words < (width + 63) / 64 && width % 64 == 0 ==> KeptBits(words, width) == 64 * words
  {
  }

  /**
    A sized literal is its value modulo 2^width exactly when the value has a word for every word of
    the width, or the width ends at a word, or the value fits in the bits that are kept of its own
    last word.
  */
  lemma SizedLiteralIff(v: nat, width: nat)
    ensures var words := WordCount(v);
      MaskToWidth(v, width) == v % Pow2(width)
      <==> words >= (width + 63) / 64 || width % 64 == 0 || v < Pow2(KeptBits(words, width))
  {
    var words := WordCount(v);
    KeptWidth(words, width);
    if words < (width + 63) / 64 {
      WordCountBound(v);
      Pow2Grows(64 * words, width);
      SmallModulo(v, Pow2(width));
      if v < Pow2(KeptBits(words, width)) {
        SmallModulo(v, Pow2(KeptBits(words, width)));
      } else if v % Pow2(KeptBits(words, width)) == v {
        ModuloBelow(v, Pow2(KeptBits(words, width)));
      }
    }
  }

  /** So up to 64 bits every sized literal is truncated to its width. */
  lemma NarrowLiteral(v: nat, width: nat)
    requires width <= 64
    ensures MaskToWidth(v, width) == v % Pow2(width)
  {
    SizedLiteralIff(v, width);
    if v == 0 { assert Pow2(KeptBits(0, width)) > 0; }
  }

  lemma {:induction false} Pow2Grows(m: nat, n: nat)
    requires m <= n
    ensures Pow2(m) <= Pow2(n)
    decreases n - m
  {
    if m < n { Pow2Grows(m + 1, n); }
  }

  function BaseOf(c: char): Option<nat>
  {
    if c == 'b' || c == 'B' then Some(2)
    else if c == 'o' || c == 'O' then Some(8)
    else if c == 'd' || c == 'D' then Some(10)
    else if c == 'h' || c == 'H' then Some(16)
    else None
  }

  /** Digits after the base letter; `width` is absent for unsized literals. */
  function BasedValue(digits: string, base: nat, width: Option<nat>): (r: Result<nat>)
    requires base > 0
    ensures r.Ok? ==> r.value < U64_RANGE
  {
    if digits == [] || !IsBased(digits, base) then Err
    else if width.Some? && width.value > U64_RANGE - 1 - 63 then Err
    else
      var known := if width.None? then Known(digits, base) else MaskToWidth(Known(digits, base), width.value);
      var unknown := if width.None? then Unknown(digits, base) else MaskToWidth(Unknown(digits, base), width.value);
      if unknown != 0 || known >= U64_RANGE then Err else Ok(known)
  }

  /** The same for the digits of a literal without unknown bits, as long as the result fits 64 bits. */
  lemma SizedDigitsIff(digits: string, base: nat, width: nat)
    requires base > 0 && digits != [] && IsBased(digits, base) && Unknown(digits, base) == 0
    requires width <= U64_RANGE - 1 - 63 && Known(digits, base) % Pow2(width) < U64_RANGE
    ensures var v := Known(digits, base);
      BasedValue(digits, base, Some(width)) == Ok(v % Pow2(width))
      <==> WordCount(v) >= (width + 63) / 64 || width % 64 == 0 || v < Pow2(KeptBits(WordCount(v), width))
  {
    SizedLiteralIff(Known(digits, base), width);
    SmallModulo(0, Pow2(KeptBits(WordCount(0), width)));
  }

  /** A literal `s` with its apostrophe at position `quote`. */
  function QuotedValue(s: string, quote: nat): (r: Result<nat>)
    requires quote < |s|
    ensures r.Ok? ==> r.value < U64_RANGE
  {
    if '\'' in s[quote + 1..] then Err
    else if quote > 0 && !IsNumber(s[..quote], 10) then Err
    else if quote > 0 && (Number(s[..quote], 10) >= U64_RANGE || Number(s[..quote], 10) == 0) then Err
    else
      var width := if quote == 0 then None else Some(Number(s[..quote], 10));
      var rest := s[quote + 1..];
      var signed := rest != [] && (rest[0] == 's' || rest[0] == 'S');
      var body := if signed then rest[1..] else rest;
      if body == [] then Err
      else if BaseOf(body[0]).Some? then BasedValue(body[1..], BaseOf(body[0]).value, width)
      else if width.None? && !signed && (body == "0" || body == "1") then Ok(DigitValue(body[0]))
      else Err
  }

  function Find(c: char, s: string): (n: nat)
    ensures n <= |s| && (n == |s| <==> c !in s)
    ensures n < |s| ==> s[n] == c
  {
    if s == [] || s[0] == c then 0 else 1 + Find(c, s[1..])
  }

  /** `parseVerilogInt`. */
  function VerilogInt(lit: string): (r: Result<nat>)
    ensures r.Ok? ==> r.value < U64_RANGE
  {
    var s := WithoutUnderscores(Trim(lit));
    if s == [] || s[0] == '+' || s[0] == '-' then Err
    else if '\'' !in s then (if IsNumber(s, 10) && Number(s, 10) < U64_RANGE then Ok(Number(s, 10)) else Err)
    else QuotedValue(s, Find('\'', s))
  }

  lemma FiveIsHex(s: string)
    requires s == "5"
    ensures IsBased(s, 16) && Known(s, 16) == 5 && Unknown(s, 16) == 0
  {
    assert s[..0] == [];
  }

  lemma SixtyFive(s: string)
    requires s == "65"
    ensures IsNumber(s, 10) && Number(s, 10) == 65
  {
    assert s[..1] == "6" && s[..1][..0] == [];
    assert Number(s[..1], 10) == 6;
  }

  lemma FiveMasked(words: nat)
    requires words == WordCount(5)
    ensures words == 1 && KeptBits(words, 65) == 1 && Pow2(1) == 2 && WordCount(0) == 0 && Pow2(0) == 1
  {
    assert 5 / 0x1_0000_0000_0000_0000 == 0;
  }

  lemma QuoteAtTwo(s: string)
    requires |s| > 2 && s[0] != '\'' && s[1] != '\'' && s[2] == '\''
    ensures Find('\'', s) == 2
  {
    assert s[1..][1..] == s[2..] && Find('\'', s[2..]) == 0;
  }

  /** Width, base and digits of that literal. */
  lemma SizedText(s: string)
    requires s == "65'h5" && IsNumber(s[..2], 10) && Number(s[..2], 10) == 65
    ensures QuotedValue(s, 2) == BasedValue(s[4..], 16, Some(65))
  {
    assert s[3..] == "h5" && s[3..][1..] == s[4..];
  }

  lemma NothingToStrip(s: string)
    requires s == "65'h5"
    ensures WithoutUnderscores(Trim(s)) == s
  {
    NoUnderscores(s);
  }

  lemma FiveValue(s: string)
    requires s == "5"
    ensures BasedValue(s, 16, Some(65)) == Ok(1)
  {
    FiveIsHex(s);
    FiveMasked(WordCount(5));
  }

  lemma WideLiteralRead(s: string)
    requires s == "65'h5"
    ensures VerilogInt(s) == Ok(1)
  {
    NothingToStrip(s);
    QuoteAtTwo(s);
    SixtyFive(s[..2]);
    SizedText(s);
    FiveValue(s[4..]);
  }

  /** The condition fails at 65'h5, whose value fits its width and is read as 1 all the same. */
  lemma WideLiteralLosesBits()
    ensures VerilogInt("65'h5") == Ok(1)
  {
    WideLiteralRead("65'h5");
  }

  predicate BinaryPrefix(s: string) { |s| > 2 && s[0] == '0' && (s[1] == 'b' || s[1] == 'B') }

  function PrefixedValue(s: string): (r: Result<nat>)
    ensures r.Ok? ==> r.value < U64_RANGE
  {
    if BinaryPrefix(s) then StrToULL(s[2..], 2) else StrToULL(s, 0)
  }

  /** `parse_unsigned_integral` for an unsigned type with largest value `max`. */
  function ParseUnsigned(text: string, max: nat): (r: Result<nat>)
    ensures r.Ok? ==> r.value <= max
  {
    var s := WithoutUnderscores(text);
    if s == [] || s[0] == '-' then Err
    else
      var v := if '\'' in s then VerilogInt(s) else PrefixedValue(s);
      if v.Err? || v.value > max then Err else v
  }

  /** `parse_strict_uint64`. */
  function ParseStrictU64(text: string): (r: Result<nat>)
    ensures r.Ok? ==> r.value < U64_RANGE
  {
    var s := WithoutUnderscores(Trim(text));
    if s == [] || s[0] == '-' then Err
    else
      var u := if s[0] == '+' then s[1..] else s;
      if u == [] then Err else PrefixedValue(u)
  }

  // ----- numbers as the writers print them

  function Dec(n: nat): string { Print(n, 10) }
  function Hex(n: nat): string { "0x" + Print(n, 16) }

  lemma DecWord(n: nat)
    ensures IsWord(Dec(n))
  {
    PrintRoundTrip(n, 10);
  }

  lemma HexWord(n: nat)
    ensures IsWord(Hex(n))
  {
    PrintRoundTrip(n, 16);
    forall c | c in Hex(n) ensures !IsSpace(c) { }
  }

  lemma PlainNumber(s: string)
    requires s != [] && IsNumber(s, 10)
    ensures '\'' !in s && s[0] != '-' && !BinaryPrefix(s)
  {
    assert s[0] in s && (|s| > 1 ==> s[1] in s);
  }

  lemma DecParses(n: nat, max: nat)
    requires n <= max < U64_RANGE
    ensures ParseUnsigned(Dec(n), max) == Ok(n)
  {
    PrintRoundTrip(n, 10);
    NoUnderscores(Dec(n));
    PlainNumber(Dec(n));
    DecimalText(n, 0);
  }

  lemma HexParses(n: nat, max: nat)
    requires n <= max < U64_RANGE
    ensures ParseUnsigned(Hex(n), max) == Ok(n)
  {
    PrintRoundTrip(n, 16);
    var s := Hex(n);
    assert s[0] == '0' && s[1] == 'x';
    forall c | c in s ensures c != '\'' && c != '_' { }
    NoUnderscores(s);
    HexadecimalText(n);
  }
}
