/** Which texts are numbers, and which number each of them is, said without the parsers. */
module NumberSyntax {
  import opened Wrappers
  import opened Chars
  import opened Literals
  import opened Scan

  // ----- digits and places

  const LOWER := "0123456789abcdef"
  const UPPER := "0123456789ABCDEF"

  lemma DigitTable(c: char, k: nat)
    requires k < 16
    ensures DigitValue(c) == k <==> c == LOWER[k] || c == UPPER[k]
  {
  }

  ghost function Power(base: nat, n: nat): nat { if n == 0 then 1 else base * Power(base, n - 1) }

  /** Every digit times the power of its place. */
  ghost function Positional(s: string, base: nat): nat
  {
    if s == [] then 0 else DigitValue(s[0]) * Power(base, |s| - 1) + Positional(s[1..], base)
  }

  lemma Carry(d: nat, base: nat, p: nat, rest: nat, last: nat)
    ensures (d * p + rest) * base + last == d * (base * p) + (rest * base + last)
  {
  }

  lemma {:induction false} FirstDigit(c: char, s: string, base: nat)
    ensures Number([c] + s, base) == DigitValue(c) * Power(base, |s|) + Number(s, base)
  {
    var t, n := [c] + s, |s|;
    if s == [] {
      assert t[..0] == [] && t[0] == c;
    } else {
      assert t[..n] == [c] + s[..n - 1] && t[n] == s[n - 1];
      FirstDigit(c, s[..n - 1], base);
      Carry(DigitValue(c), base, Power(base, n - 1), Number(s[..n - 1], base), DigitValue(s[n - 1]));
    }
  }

  /** The value of digits read from the left is the sum over their places. */
  lemma {:induction false} NumberIsPositional(s: string, base: nat)
    ensures Number(s, base) == Positional(s, base)
  {
    if s != [] {
      assert [s[0]] + s[1..] == s;
      FirstDigit(s[0], s[1..], base);
      NumberIsPositional(s[1..], base);
    }
  }

  ghost predicate Digits(d: string, base: nat, n: nat)
  {
    d != [] && (forall i :: 0 <= i < |d| ==> DigitValue(d[i]) < base) && Positional(d, base) == n
  }

  lemma DigitsIff(d: string, base: nat, n: nat)
    ensures Digits(d, base, n) <==> d != [] && IsNumber(d, base) && Number(d, base) == n
  {
    NumberIsPositional(d, base);
    if forall i :: 0 <= i < |d| ==> DigitValue(d[i]) < base {
      forall c | c in d ensures DigitValue(c) < base { }
    }
    assert forall i :: 0 <= i < |d| ==> d[i] in d;
  }

  lemma MagnitudeIff(d: string, base: nat, n: nat)
    ensures Magnitude(d, base) == Ok(n) <==> Digits(d, base, n) && n < U64_RANGE
  {
    DigitsIff(d, base, n);
  }

  // ----- C syntax

  /** Decimal, octal, hexadecimal and binary texts. */
  ghost predicate Spells(t: string, n: nat)
  {
    || (t != [] && (t[0] != '0' || t == "0") && Digits(t, 10, n))
    || (|t| > 1 && t[0] == '0' && Digits(t[1..], 8, n))
    || (|t| > 2 && t[0] == '0' && (t[1] == 'x' || t[1] == 'X') && Digits(t[2..], 16, n))
    || (|t| > 2 && t[0] == '0' && (t[1] == 'b' || t[1] == 'B') && Digits(t[2..], 2, n))
  }

  predicate Ordinary(c: char)
  {
    c != '_' && c != '\'' && c != '+' && c != '-' && c != '\0' && !IsSpace(c)
  }

  ghost predicate PlainText(t: string) { forall i :: 0 <= i < |t| ==> Ordinary(t[i]) }

  lemma PlainIsWhole(t: string)
    requires PlainText(t)
    ensures CString(t) == t && TrimLeft(t) == t && WithoutSign(t) == t && WithoutUnderscores(t) == t && '\'' !in t
    ensures t != [] ==> t[0] != '-' && t[0] != '+'
  {
    assert forall c :: c in t ==> Ordinary(c);
    CStringWhole(t);
    NoUnderscores(t);
  }

  lemma ZeroOctal()
    ensures Digits("0", 10, 0) && Positional("0", 8) == 0
  {
    assert "0"[1..] == [] && Power(10, 0) == Power(8, 0) == 1;
  }

  /** The leading zero of an octal text counts nothing. */
  lemma LeadingZero(t: string, n: nat)
    requires |t| > 1 && t[0] == '0'
    ensures Digits(t, 8, n) <==> Digits(t[1..], 8, n)
  {
    var d := t[1..];
    assert Positional(t, 8) == Positional(d, 8);
    assert forall i :: 0 <= i < |d| ==> d[i] == t[i + 1];
    if Digits(d, 8, n) {
      forall i | 0 <= i < |t| ensures DigitValue(t[i]) < 8 { if i > 0 { assert d[i - 1] == t[i]; } }
    }
  }

  lemma LetterIsNoDigit(t: string, n: nat)
    requires |t| > 1 && (t[1] == 'x' || t[1] == 'X' || t[1] == 'b' || t[1] == 'B')
    ensures !Digits(t[1..], 8, n) && !Digits(t, 8, n) && !Digits(t, 10, n)
  {
    assert t[1..][0] == t[1];
  }

  ghost predicate SpellsC(t: string, n: nat)
  {
    || (t != [] && (t[0] != '0' || t == "0") && Digits(t, 10, n))
    || (|t| > 1 && t[0] == '0' && Digits(t[1..], 8, n))
    || (|t| > 2 && t[0] == '0' && (t[1] == 'x' || t[1] == 'X') && Digits(t[2..], 16, n))
  }

  lemma OnlyZero(n: nat)
    ensures Digits("0", 8, n) <==> n == 0
    ensures Digits("0", 10, n) <==> n == 0
  {
    ZeroOctal();
    assert "0"[1..] == [] && Positional("0", 10) == 0;
  }

  lemma HexIff(t: string, n: nat)
    requires PlainText(t) && HexPrefix(t)
    ensures StrToULL(t, 0) == Ok(n) <==> SpellsC(t, n) && n < U64_RANGE
  {
    PlainIsWhole(t);
    MagnitudeIff(t[2..], 16, n);
    LetterIsNoDigit(t, n);
  }

  lemma NoHexIff(t: string, n: nat)
    requires PlainText(t) && !HexPrefix(t)
    ensures StrToULL(t, 0) == Ok(n) <==> SpellsC(t, n) && n < U64_RANGE
  {
    PlainIsWhole(t);
    MagnitudeIff(t, DetectBase(t), n);
    if |t| > 2 && t[0] == '0' && (t[1] == 'x' || t[1] == 'X') {
      assert t[2..][0] == t[2];
      LetterIsNoDigit(t, n);
    } else if |t| > 1 && t[0] == '0' {
      LeadingZero(t, n);
    } else if t != [] && t[0] == '0' {
      assert t == "0";
      OnlyZero(n);
    }
  }

  /** `strtoull` with base 0. */
  lemma StrToULLIff(t: string, n: nat)
    requires PlainText(t)
    ensures StrToULL(t, 0) == Ok(n) <==> SpellsC(t, n) && n < U64_RANGE
  {
    if HexPrefix(t) { HexIff(t, n); } else { NoHexIff(t, n); }
  }

  /** `strtoull` with base 10, as for timestamps, or with base 2. */
  lemma StrToULLBaseIff(t: string, base: nat, n: nat)
    requires PlainText(t) && (base == 2 || base == 10)
    ensures StrToULL(t, base) == Ok(n) <==> Digits(t, base, n) && n < U64_RANGE
  {
    PlainIsWhole(t);
    MagnitudeIff(t, base, n);
  }

  lemma PrefixedIff(t: string, n: nat)
    requires PlainText(t)
    ensures PrefixedValue(t) == Ok(n) <==> Spells(t, n) && n < U64_RANGE
  {
    if BinaryPrefix(t) {
      StrToULLBaseIff(t[2..], 2, n);
      LetterIsNoDigit(t, n);
    } else {
      StrToULLIff(t, n);
    }
  }

  /** A plain text is accepted exactly if it spells a number in range, and then it is that number. */
  lemma ParseUnsignedIff(t: string, max: nat, n: nat)
    requires PlainText(t) && max < U64_RANGE
    ensures ParseUnsigned(t, max) == Ok(n) <==> Spells(t, n) && n <= max
  {
    PlainIsWhole(t);
    PrefixedIff(t, n);
  }

  /** For the strict parser a plus sign in front changes nothing. */
  lemma ParseStrictIff(t: string, n: nat)
    requires PlainText(t) && t != []
    ensures ParseStrictU64(t) == Ok(n) <==> Spells(t, n) && n < U64_RANGE
    ensures ParseStrictU64("+" + t) == ParseStrictU64(t)
  {
    PlainIsWhole(t);
    PrefixedIff(t, n);
    var u := "+" + t;
    assert Trim(t) == t && Trim(u) == u by { assert u[|u| - 1] == t[|t| - 1]; }
    assert u[1..] == t;
  }

  lemma SameTrimmed(s: string, t: string, base: nat)
    requires (base == 0 || base == 2 || base == 10) && TrimLeft(CString(s)) == TrimLeft(CString(t))
    ensures StrToULL(s, base) == StrToULL(t, base)
  {
  }

  lemma PlusSign(t: string, base: nat)
    requires PlainText(t) && t != [] && (base == 0 || base == 2 || base == 10)
    ensures StrToULL("+" + t, base) == StrToULL(t, base)
  {
    PlainIsWhole(t);
    CStringWhole("+" + t);
    assert ("+" + t)[1..] == t;
  }

  lemma MinusSign(t: string, base: nat)
    requires PlainText(t) && t != [] && (base == 0 || base == 2 || base == 10)
    ensures StrToULL("-" + t, base)
      == if StrToULL(t, base).Err? then Err
         else Ok(if StrToULL(t, base).value == 0 then 0 else U64_RANGE - StrToULL(t, base).value)
  {
    PlainIsWhole(t);
    CStringWhole("-" + t);
    assert ("-" + t)[1..] == t;
  }

  lemma BlanksIgnored(blanks: string, t: string, base: nat)
    requires (forall i :: 0 <= i < |blanks| ==> IsSpace(blanks[i])) && '\0' !in t && t != [] && !IsSpace(t[0])
    requires base == 0 || base == 2 || base == 10
    ensures StrToULL(blanks + t, base) == StrToULL(t, base)
  {
    SkipBlanks(blanks, t);
    CStringWhole(t);
    SameTrimmed(blanks + t, t, base);
  }

  /** Signs and blanks in front of a number: a minus wraps around at 2^64. */
  lemma SignedText(blanks: string, t: string, base: nat)
    requires (forall i :: 0 <= i < |blanks| ==> IsSpace(blanks[i])) && PlainText(t) && t != []
    requires base == 0 || base == 2 || base == 10
    ensures StrToULL(blanks + t, base) == StrToULL(t, base) == StrToULL(blanks + ("+" + t), base)
    ensures StrToULL(blanks + ("-" + t), base)
      == if StrToULL(t, base).Err? then Err
         else Ok(if StrToULL(t, base).value == 0 then 0 else U64_RANGE - StrToULL(t, base).value)
  {
    assert forall c :: c in t ==> Ordinary(c);
    BlanksIgnored(blanks, t, base);
    BlanksIgnored(blanks, "+" + t, base);
    BlanksIgnored(blanks, "-" + t, base);
    PlusSign(t, base);
    MinusSign(t, base);
  }

  lemma {:induction false} SkipBlanks(blanks: string, t: string)
    requires (forall i :: 0 <= i < |blanks| ==> IsSpace(blanks[i])) && '\0' !in t && t != [] && !IsSpace(t[0])
    ensures TrimLeft(CString(blanks + t)) == t
  {
    if blanks == [] {
      assert blanks + t == t;
      CStringWhole(t);
    } else {
      assert (blanks + t)[1..] == blanks[1..] + t;
      SkipBlanks(blanks[1..], t);
      assert CString(blanks + t) == [blanks[0]] + CString(blanks[1..] + t);
      assert ([blanks[0]] + CString(blanks[1..] + t))[1..] == CString(blanks[1..] + t);
    }
  }

  /** Underscores may stand anywhere. */
  lemma {:induction false} UnderscoresIgnored(s: string)
    ensures WithoutUnderscores(s) == Filter((c: char) => c != '_', s)
  {
    if s != [] { UnderscoresIgnored(s[1..]); }
  }

  // ----- SystemVerilog syntax

  ghost predicate Radix(letter: char, base: nat)
  {
    || ((letter == 'b' || letter == 'B') && base == 2) || ((letter == 'o' || letter == 'O') && base == 8)
    || ((letter == 'd' || letter == 'D') && base == 10) || ((letter == 'h' || letter == 'H') && base == 16)
  }

  lemma {:induction false} KnownDigits(d: string, base: nat)
    requires 2 <= base <= 16
    ensures IsNumber(d, base) ==> IsBased(d, base) && Known(d, base) == Number(d, base) && Unknown(d, base) == 0
    ensures IsBased(d, base) && Unknown(d, base) == 0 ==> IsNumber(d, base)
  {
    if d != [] {
      var n := |d| - 1;
      KnownDigits(d[..n], base);
      assert d == d[..n] + [d[n]] && d[n] in d && forall c :: c in d[..n] ==> c in d;
      assert forall c :: c in d ==> c in d[..n] || c == d[n];
      assert Unknown(d[..n], base) > 0 ==> Unknown(d[..n], base) * base > 0;
    }
  }

  /** Digits without a width: exactly the digits of the base, without unknown ones, up to 64 bits. */
  lemma UnsizedIff(d: string, base: nat, n: nat)
    requires 2 <= base <= 16
    ensures BasedValue(d, base, None) == Ok(n) <==> Digits(d, base, n) && n < U64_RANGE
  {
    KnownDigits(d, base);
    DigitsIff(d, base, n);
  }

  lemma LetterBase(letter: char, base: nat)
    ensures Radix(letter, base) <==> BaseOf(letter) == Some(base)
  {
  }

  predicate IsSign(sign: string) { sign == "" || sign == "s" || sign == "S" }

  function Tail(sign: string, letter: char, d: string): string { sign + ([letter] + d) }

  lemma TailParts(sign: string, letter: char, d: string, base: nat)
    requires IsSign(sign) && Radix(letter, base) && '\'' !in d
    ensures var rest := Tail(sign, letter, d); var signed := rest != [] && (rest[0] == 's' || rest[0] == 'S');
      '\'' !in rest && (if signed then rest[1..] else rest) == [letter] + d
  {
    var rest := Tail(sign, letter, d);
    if sign == "" {
      assert rest == [letter] + d;
    } else {
      assert rest[0] == sign[0] && rest[1..] == [letter] + d;
    }
  }

  /** A literal with a base letter: what follows the letter are its digits, what precedes the quote its width. */
  lemma BasedText(t: string, quote: nat, sign: string, letter: char, d: string, base: nat)
    requires IsSign(sign) && Radix(letter, base) && '\'' !in d && quote < |t| && t[quote + 1..] == Tail(sign, letter, d)
    requires quote > 0 ==> IsNumber(t[..quote], 10) && 0 < Number(t[..quote], 10) < U64_RANGE
    ensures QuotedValue(t, quote)
      == BasedValue(d, base, if quote == 0 then None else Some(Number(t[..quote], 10)))
  {
    TailParts(sign, letter, d, base);
    LetterBase(letter, base);
    assert ([letter] + d)[1..] == d;
  }

  lemma {:induction false} QuoteAfter(width: string, rest: string)
    requires '\'' !in width
    ensures Find('\'', width + ("'" + rest)) == |width|
  {
    if width == [] {
      assert width + ("'" + rest) == "'" + rest;
    } else {
      assert (width + ("'" + rest))[1..] == width[1..] + ("'" + rest);
      QuoteAfter(width[1..], rest);
    }
  }

  /** A text without blanks at its ends, without underscores and without a sign is taken as it is. */
  lemma VerilogWhole(s: string)
    requires s != [] && !IsSpace(s[0]) && !IsSpace(s[|s| - 1]) && '_' !in s && s[0] != '+' && s[0] != '-'
    ensures VerilogInt(s) == if '\'' in s then QuotedValue(s, Find('\'', s))
                             else if IsNumber(s, 10) && Number(s, 10) < U64_RANGE then Ok(Number(s, 10)) else Err
  {
    assert Trim(s) == s;
    NoUnderscores(s);
  }

  ghost predicate PlainTail(d: string) { d != [] && PlainText(d) }

  lemma QuotedEnds(head: string, rest: string)
    requires PlainText(head) && rest != [] && !IsSpace(rest[|rest| - 1]) && '_' !in rest
    ensures var t := head + ("'" + rest);
      t != [] && !IsSpace(t[0]) && !IsSpace(t[|t| - 1]) && '_' !in t && t[0] != '+' && t[0] != '-'
  {
    var t := head + ("'" + rest);
    assert forall c :: c in head ==> Ordinary(c);
    assert t[|t| - 1] == rest[|rest| - 1];
    assert t[0] == if head == [] then '\'' else head[0];
  }

  /** A text with its first apostrophe after `head`. */
  lemma QuotedText(head: string, rest: string)
    requires PlainText(head) && rest != [] && !IsSpace(rest[|rest| - 1]) && '_' !in rest
    ensures var t := head + ("'" + rest);
      VerilogInt(t) == QuotedValue(t, |head|) && |head| < |t| && t[..|head|] == head && t[|head| + 1..] == rest
  {
    var t := head + ("'" + rest);
    QuotedEnds(head, rest);
    PlainIsWhole(head);
    VerilogWhole(t);
    QuoteAfter(head, rest);
    assert t[|head|] == '\'';
  }

  lemma NumberIsPlain(w: string)
    requires IsNumber(w, 10)
    ensures PlainText(w)
  {
    forall i | 0 <= i < |w| ensures Ordinary(w[i]) { assert w[i] in w; }
  }

  lemma WholeLiteral(width: string, sign: string, letter: char, d: string, base: nat)
    requires IsNumber(width, 10) && IsSign(sign) && Radix(letter, base) && PlainTail(d)
    ensures var t := width + ("'" + Tail(sign, letter, d));
      VerilogInt(t) == QuotedValue(t, |width|) && |width| < |t|
      && t[..|width|] == width && t[|width| + 1..] == Tail(sign, letter, d)
  {
    var rest := Tail(sign, letter, d);
    NumberIsPlain(width);
    assert forall c :: c in d ==> Ordinary(c);
    assert rest[|rest| - 1] == d[|d| - 1];
    QuotedText(width, rest);
  }

  /** Unsized literals in the four bases, signed or not, in either case of the letters. */
  lemma UnsizedLiteralIff(sign: string, letter: char, d: string, base: nat, n: nat)
    requires IsSign(sign) && Radix(letter, base) && PlainTail(d)
    ensures VerilogInt("'" + Tail(sign, letter, d)) == Ok(n) <==> Digits(d, base, n) && n < U64_RANGE
  {
    var t := "'" + Tail(sign, letter, d);
    PlainIsWhole(d);
    WholeLiteral("", sign, letter, d, base);
    assert "" + t == t;
    BasedText(t, 0, sign, letter, d, base);
    UnsizedIff(d, base, n);
  }

  /** A width in front of the quote masks the digits. */
  lemma SizedLiteral(width: string, sign: string, letter: char, d: string, base: nat)
    requires width != [] && IsNumber(width, 10) && 0 < Number(width, 10) < U64_RANGE
    requires IsSign(sign) && Radix(letter, base) && PlainTail(d)
    ensures VerilogInt(width + ("'" + Tail(sign, letter, d))) == BasedValue(d, base, Some(Number(width, 10)))
  {
    PlainIsWhole(d);
    WholeLiteral(width, sign, letter, d, base);
    BasedText(width + ("'" + Tail(sign, letter, d)), |width|, sign, letter, d, base);
  }

  /** Without an apostrophe the text is a decimal number. */
  lemma PlainDecimalIff(t: string, n: nat)
    requires PlainTail(t)
    ensures VerilogInt(t) == Ok(n) <==> Digits(t, 10, n) && n < U64_RANGE
  {
    PlainIsWhole(t);
    assert forall c :: c in t ==> Ordinary(c);
    VerilogWhole(t);
    DigitsIff(t, 10, n);
  }

  /** An apostrophe and a single character: only zero and one. */
  lemma UnbasedBit(c: char)
    requires Ordinary(c)
    ensures VerilogInt("'" + [c]) == if c == '0' then Ok(0) else if c == '1' then Ok(1) else Err
  {
    var t := "'" + [c];
    QuotedText("", [c]);
    assert "" + t == t && [c][1..] == [];
    assert [c] == "0" <==> c == '0';
    assert [c] == "1" <==> c == '1';
  }

  /** Refused: a second apostrophe, and a width that is no positive number. */
  lemma LiteralRefused(head: string, rest: string)
    requires PlainText(head) && rest != [] && !IsSpace(rest[|rest| - 1]) && '_' !in rest
    requires '\'' in rest || (head != [] && !(IsNumber(head, 10) && 0 < Number(head, 10) < U64_RANGE))
    ensures VerilogInt(head + ("'" + rest)).Err?
  {
    QuotedText(head, rest);
  }

  /** Refused: a sign. */
  lemma SignRefused(sign: char, t: string)
    requires (sign == '+' || sign == '-') && PlainText(t)
    ensures VerilogInt([sign] + t).Err? && (sign == '-' ==> ParseUnsigned([sign] + t, U64_RANGE - 1).Err?)
  {
    var u := [sign] + t;
    assert forall c :: c in t ==> Ordinary(c);
    assert u[|u| - 1] == if t == [] then sign else t[|t| - 1];
    NoUnderscores(u);
    assert Trim(u) == u;
  }

  lemma TwoDigits(c: char, base: nat)
    requires base == 2 || base == 10
    ensures var d := [c] + "0";
      && (IsBased(d, base) <==> DigitValue(c) < base || (base != 10 && UnknownDigit(c)))
      && Unknown(d, base) == (if UnknownDigit(c) then (base - 1) * base else 0)
      && Known(d, base) == (if UnknownDigit(c) then 0 else DigitValue(c) * base)
  {
    var d := [c] + "0";
    assert d[..1] == [c] && [c][..0] == [] && d[0] == c && d[1] == '0';
    assert Known([c], base) == (if UnknownDigit(c) then 0 else DigitValue(c));
    assert Unknown([c], base) == (if UnknownDigit(c) then base - 1 else 0);
    assert forall x :: x in d <==> x == c || x == '0';
  }

  lemma MaskedTwo()
    ensures WordCount(2) == 1 && KeptBits(1, 1) == 1 && Pow2(1) == 2 && WordCount(0) == 0 && KeptBits(0, 1) == 0
    ensures MaskToWidth(2, 1) == 0 && MaskToWidth(0, 1) == 0
  {
    assert 2 / 0x1_0000_0000_0000_0000 == 0;
  }

  /** The unknown digits are x, z and the question mark; above the width they are dropped, except in base ten. */
  lemma UnknownDigits(c: char)
    requires DigitValue(c) >= 10
    ensures BasedValue([c] + "0", 2, Some(1)) == Ok(0)
      <==> c == 'x' || c == 'X' || c == 'z' || c == 'Z' || c == '?'
    ensures BasedValue([c] + "0", 2, Some(1)).Ok? ==> BasedValue([c] + "0", 2, Some(1)) == Ok(0)
    ensures BasedValue([c] + "0", 10, Some(1)).Err?
  {
    TwoDigits(c, 2);
    TwoDigits(c, 10);
    MaskedTwo();
  }
}
