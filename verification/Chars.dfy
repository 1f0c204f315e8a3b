/** Characters, whitespace, lines and number syntax of the text formats. */
module Chars {
  import opened Wrappers


  predicate IsSpace(c: char) { c == ' ' || 9 <= c as int <= 13 }
  predicate NoSpace(s: string) { forall c :: c in s ==> !IsSpace(c) }

  // ----- trimming

  function TrimLeft(s: string): string
  {
    if s != [] && IsSpace(s[0]) then TrimLeft(s[1..]) else s
  }

  function TrimRight(s: string): string
  {
    if s != [] && IsSpace(s[|s| - 1]) then TrimRight(s[..|s| - 1]) else s
  }

  function Trim(s: string): string { TrimRight(TrimLeft(s)) }

  lemma {:induction false} TrimLeftConcat(a: string, b: string)
    ensures TrimLeft(a + b) == if TrimLeft(a) == [] then TrimLeft(b) else TrimLeft(a) + b
  {
    if a == [] {
      assert a + b == b;
    } else if IsSpace(a[0]) {
      assert (a + b)[1..] == a[1..] + b;
      TrimLeftConcat(a[1..], b);
    }
  }

  lemma {:induction false} TrimLeftShape(s: string)
    ensures TrimLeft(s) != [] ==> !IsSpace(TrimLeft(s)[0])
    ensures forall c :: c in TrimLeft(s) ==> c in s
  {
    if s != [] && IsSpace(s[0]) { TrimLeftShape(s[1..]); }
  }

  lemma TrimRightSpace(s: string, c: char)
    requires IsSpace(c)
    ensures TrimRight(s + [c]) == TrimRight(s)
  {
    assert (s + [c])[..|s|] == s;
  }

  // ----- words

  /** The length of the word a non-blank text begins with. */
  function WordEnd(s: string): (n: nat)
    requires s != [] && !IsSpace(s[0])
    ensures 1 <= n <= |s|
  {
    if |s| == 1 || IsSpace(s[1]) then 1 else 1 + WordEnd(s[1..])
  }

  /** The maximal runs of non-blank characters, in order. */
  function Words(s: string): seq<string>
    decreases |s|
  {
    if s == [] then []
    else if IsSpace(s[0]) then Words(s[1..])
    else [s[..WordEnd(s)]] + Words(s[WordEnd(s)..])
  }

  predicate IsWord(w: string) { w != [] && NoSpace(w) }

  lemma {:induction false} WordEndExact(w: string, rest: string)
    requires IsWord(w) && (rest == [] || IsSpace(rest[0]))
    ensures (w + rest)[0] == w[0] && WordEnd(w + rest) == |w|
    decreases w
  {
    var s := w + rest;
    if |w| > 1 {
      assert s[1..] == w[1..] + rest && s[1] == w[1];
      WordEndExact(w[1..], rest);
    } else {
      assert s[0] == w[0] && (|s| == 1 || s[1] == rest[0]);
    }
  }

  /** The first word of a text, and the words after it. */
  lemma FirstWord(w: string, rest: string)
    requires IsWord(w) && (rest == [] || IsSpace(rest[0]))
    ensures Words(w + rest) == [w] + Words(rest)
  {
    var s := w + rest;
    WordEndExact(w, rest);
    assert s[..|w|] == w && s[|w|..] == rest;
  }

  lemma SkipSpace(c: char, rest: string)
    requires IsSpace(c)
    ensures Words([c] + rest) == Words(rest)
  {
    assert ([c] + rest)[1..] == rest;
  }

  function Spaced(w: string, rest: string): string { w + (" " + rest) }

  lemma SpacedWords(w: string, rest: string)
    requires IsWord(w)
    ensures Words(Spaced(w, rest)) == [w] + Words(rest)
  {
    FirstWord(w, " " + rest);
    SkipSpace(' ', rest);
  }

  lemma OneWord(w: string)
    requires IsWord(w)
    ensures Words(w) == [w]
  {
    FirstWord(w, []);
    assert w + [] == w;
  }

  /** Words with one space between them. */
  function Joined(ws: seq<string>): string
    requires ws != []
  {
    if |ws| == 1 then ws[0] else ws[0] + (" " + Joined(ws[1..]))
  }

  lemma {:induction false} JoinedWords(ws: seq<string>, rest: string)
    requires ws != [] && forall w :: w in ws ==> IsWord(w)
    ensures Words(Joined(ws) + ("\n" + rest)) == ws + Words(rest)
    decreases |ws|
  {
    if |ws| == 1 {
      FirstWord(ws[0], "\n" + rest);
      SkipSpace('\n', rest);
      assert ws == [ws[0]];
    } else {
      var tail := Joined(ws[1..]) + ("\n" + rest);
      JoinedWords(ws[1..], rest);
      assert Joined(ws) + ("\n" + rest) == Spaced(ws[0], tail);
      SpacedWords(ws[0], tail);
      assert [ws[0]] + ws[1..] == ws;
    }
  }

  lemma {:induction false} JoinedAlone(ws: seq<string>)
    requires ws != [] && forall w :: w in ws ==> IsWord(w)
    ensures Words(Joined(ws)) == ws
    decreases |ws|
  {
    if |ws| == 1 {
      OneWord(ws[0]);
      assert ws == [ws[0]];
    } else {
      JoinedAlone(ws[1..]);
      SpacedWords(ws[0], Joined(ws[1..]));
      assert [ws[0]] + ws[1..] == ws;
    }
  }

  predicate SameEnds(a: string, z: string, l: string)
  {
    a != [] && z != [] && l != [] && l[0] == a[0] && l[|l| - 1] == z[|z| - 1]
  }

  lemma EndsOfThree(a: string, b: string, z: string, l: string)
    requires a != [] && SameEnds(b, z, l)
    ensures SameEnds(a, z, a + (" " + l))
  {
  }

  lemma {:induction false} JoinedEnds(ws: seq<string>)
    requires ws != [] && forall w :: w in ws ==> w != []
    ensures SameEnds(ws[0], ws[|ws| - 1], Joined(ws))
    decreases |ws|
  {
    assert ws[0] in ws;
    if |ws| > 1 {
      forall w | w in ws[1..] ensures w != [] { assert w in ws; }
      JoinedEnds(ws[1..]);
      EndsOfThree(ws[0], ws[1], ws[|ws| - 1], Joined(ws[1..]));
    }
  }

  // ----- lines

  function LineEnd(s: string): (n: nat)
    ensures n <= |s| && (n < |s| ==> s[n] == '\n')
  {
    if s == [] || s[0] == '\n' then 0 else 1 + LineEnd(s[1..])
  }

  /** What repeated `getline` calls deliver. */
  function Lines(s: string): seq<string>
    decreases |s|
  {
    if s == [] then []
    else
      var n := LineEnd(s);
      if n == |s| then [s] else [s[..n]] + Lines(s[n + 1..])
  }

  ghost function Unlines(ls: seq<string>): string
  {
    if ls == [] then [] else ls[0] + ("\n" + Unlines(ls[1..]))
  }

  predicate IsLine(l: string) { '\n' !in l }

  lemma {:induction false} JoinedIsLine(ws: seq<string>)
    requires ws != [] && forall w :: w in ws ==> IsWord(w)
    ensures IsLine(Joined(ws))
    decreases |ws|
  {
    assert ws[0] in ws && IsLine(ws[0]);
    if |ws| > 1 { JoinedIsLine(ws[1..]); }
  }

  lemma {:induction false} LineEndExact(l: string, rest: string)
    requires IsLine(l)
    ensures LineEnd(l + ("\n" + rest)) == |l|
  {
    var s := l + ("\n" + rest);
    if l != [] {
      assert s[0] == l[0] && l[0] in l && s[1..] == l[1..] + ("\n" + rest);
      LineEndExact(l[1..], rest);
    }
  }

  lemma FirstLine(l: string, rest: string)
    requires IsLine(l)
    ensures Lines(l + ("\n" + rest)) == [l] + Lines(rest)
  {
    var s := l + ("\n" + rest);
    LineEndExact(l, rest);
    assert s[..|l|] == l && s[|l| + 1..] == rest;
  }

  lemma {:induction false} LinesRoundTrip(ls: seq<string>)
    requires forall l :: l in ls ==> IsLine(l)
    ensures Lines(Unlines(ls)) == ls
  {
    if ls != [] {
      LinesRoundTrip(ls[1..]);
      FirstLine(ls[0], Unlines(ls[1..]));
    }
  }

  lemma {:induction false} UnlinesConcat(a: seq<string>, b: seq<string>)
    ensures Unlines(a + b) == Unlines(a) + Unlines(b)
  {
    if a == [] {
      assert a + b == b;
    } else {
      assert (a + b)[0] == a[0] && (a + b)[1..] == a[1..] + b;
      UnlinesConcat(a[1..], b);
    }
  }

  /** A file with one line per item. */
  ghost function Listing<T>(line: T -> string, s: seq<T>): string
  {
    Unlines(seq(|s|, i requires 0 <= i < |s| => line(s[i])))
  }

  lemma ListingFirst<T>(line: T -> string, s: seq<T>, tail: string)
    requires s != []
    ensures Listing(line, s) + tail == line(s[0]) + ("\n" + (Listing(line, s[1..]) + tail))
  {
    var ls := seq(|s|, i requires 0 <= i < |s| => line(s[i]));
    var rest := s[1..];
    assert ls[1..] == seq(|rest|, i requires 0 <= i < |rest| => line(rest[i]));
  }

  lemma ListingAppend<T>(line: T -> string, s: seq<T>, x: T)
    ensures Listing(line, s + [x]) == Listing(line, s) + line(x) + "\n"
  {
    var ls := seq(|s|, i requires 0 <= i < |s| => line(s[i]));
    var t := s + [x];
    assert seq(|t|, i requires 0 <= i < |t| => line(t[i])) == ls + [line(x)];
    UnlinesConcat(ls, [line(x)]);
    assert [line(x)][1..] == [] && Unlines([line(x)]) == line(x) + ("\n" + []);
  }

  /** Writes one line per item, stopping at the first that has none. */
  method WriteLines<T>(has: T -> bool, line: T -> string, s: seq<T>) returns (r: Result<string>)
    ensures r == if exists i :: 0 <= i < |s| && !has(s[i]) then Err else Ok(Listing(line, s))
  {
    var out := "";
    for i := 0 to |s|
      invariant out == Listing(line, s[..i])
      invariant forall k :: 0 <= k < i ==> has(s[k])
    {
      if !has(s[i]) { return Err; }
      assert s[..i + 1] == s[..i] + [s[i]];
      ListingAppend(line, s[..i], s[i]);
      out := out + line(s[i]) + "\n";
    }
    assert s[..|s|] == s;
    return Ok(out);
  }

  // ----- numbers

  /** The value of a digit, or 16 for any other character. */
  function DigitValue(c: char): (d: nat)
    ensures d <= 16
  {
    if '0' <= c <= '9' then c as int - '0' as int
    else if 'a' <= c <= 'f' then c as int - 'a' as int + 10
    else if 'A' <= c <= 'F' then c as int - 'A' as int + 10
    else 16
  }

  function Digit(d: nat): (c: char)
    requires d < 16
    ensures DigitValue(c) == d && !IsSpace(c) && c != '\0' && c != '_'
  {
    if d < 10 then (d + '0' as int) as char else (d - 10 + 'a' as int) as char
  }

  function Print(n: nat, base: nat): (s: string)
    requires 2 <= base <= 16
    ensures s != []
  {
    if n < base then [Digit(n)] else
      QuotientSmaller(n, base);
      Print(n / base, base) + [Digit(n % base)]
  }

  lemma QuotientBounds(n: nat, q: int, base: nat, r: int)
    requires 2 <= base <= n && n == q * base + r && 0 <= r < base
    ensures 0 < q < n
  {
    assert q <= 0 ==> q * base <= 0;
    assert q > 0 ==> q * (base - 2) >= 0;
  }

  lemma QuotientSmaller(n: nat, base: nat)
    requires 2 <= base <= n
    ensures 0 < n / base < n && n == (n / base) * base + n % base
  {
    QuotientBounds(n, n / base, base, n % base);
  }

  predicate IsNumber(s: string, base: nat) { forall c :: c in s ==> DigitValue(c) < base }

  function Number(s: string, base: nat): nat
  {
    if s == [] then 0 else Number(s[..|s| - 1], base) * base + DigitValue(s[|s| - 1])
  }

  /** Printing and reading a number are inverse, and a printed number has no leading zero. */
  lemma {:induction false} PrintRoundTrip(n: nat, base: nat)
    requires 2 <= base <= 16
    ensures IsNumber(Print(n, base), base) && Number(Print(n, base), base) == n
    ensures NoSpace(Print(n, base)) && '\0' !in Print(n, base) && '_' !in Print(n, base)
    ensures n > 0 ==> Print(n, base)[0] != '0'
    ensures n == 0 ==> Print(n, base) == "0"
  {
    if n < base {
      assert Print(n, base)[..0] == [];
      assert Number([], base) * base == 0;
    } else {
      QuotientSmaller(n, base);
      PrintRoundTrip(n / base, base);
      var s := Print(n, base);
      assert s[..|s| - 1] == Print(n / base, base);
    }
  }

  /** A character array stops at the first NUL. */
  function CString(s: string): string
  {
    if s == [] || s[0] == '\0' then [] else [s[0]] + CString(s[1..])
  }

  lemma {:induction false} CStringWhole(s: string)
    requires '\0' !in s
    ensures CString(s) == s
  {
    if s != [] { CStringWhole(s[1..]); }
  }

  function WithoutSign(t: string): string
  {
    if t != [] && (t[0] == '-' || t[0] == '+') then t[1..] else t
  }

  predicate HexPrefix(u: string) { |u| > 2 && u[0] == '0' && (u[1] == 'x' || u[1] == 'X') && DigitValue(u[2]) < 16 }

  /** The base that base 0 selects. */
  function DetectBase(u: string): nat
  {
    if HexPrefix(u) then 16 else if u != [] && u[0] == '0' then 8 else 10
  }

  function Magnitude(d: string, base: nat): Result<nat>
  {
    if d == [] || !IsNumber(d, base) || Number(d, base) >= U64_RANGE then Err else Ok(Number(d, base))
  }

  /** `strtoull` that must consume its whole argument and must not report a range error. */
  function StrToULL(s: string, base: nat): (r: Result<nat>)
    requires base == 0 || base == 2 || base == 10
    ensures r.Ok? ==> r.value < U64_RANGE
  {
    var t := TrimLeft(CString(s));
    var u := WithoutSign(t);
    var m := if base != 0 then Magnitude(u, base)
      else if HexPrefix(u) then Magnitude(u[2..], 16) else Magnitude(u, DetectBase(u));
    if m.Err? then Err
    else if t != [] && t[0] == '-' && m.value != 0 then Ok(U64_RANGE - m.value) else m
  }

  function WithoutUnderscores(s: string): string
  {
    if s == [] then [] else (if s[0] == '_' then [] else [s[0]]) + WithoutUnderscores(s[1..])
  }

  lemma {:induction false} NoUnderscores(s: string)
    requires '_' !in s
    ensures WithoutUnderscores(s) == s
  {
    if s != [] { NoUnderscores(s[1..]); }
  }

  lemma SignlessText(s: string)
    requires s != [] && NoSpace(s) && '\0' !in s && s[0] != '-' && s[0] != '+'
    ensures CString(s) == s && TrimLeft(s) == s && WithoutSign(s) == s
  {
    CStringWhole(s);
    assert s[0] in s;
  }

  /** Decimal numbers as they are printed. */
  lemma DecimalText(n: nat, base: nat)
    requires n < U64_RANGE && (base == 0 || base == 10)
    ensures StrToULL(Print(n, 10), base) == Ok(n)
  {
    PrintRoundTrip(n, 10);
    var s := Print(n, 10);
    assert DigitValue(s[0]) < 10 by { assert s[0] in s; }
    SignlessText(s);
    if base == 0 {
      if n == 0 {
        assert s == ['0'] && s[..0] == [];
        assert DetectBase(s) == 8 && Number(s, 8) == Number(s[..0], 8) * 8 + 0;
      } else {
        assert DetectBase(s) == 10;
      }
    }
  }

  lemma HexadecimalText(n: nat)
    requires n < U64_RANGE
    ensures StrToULL("0x" + Print(n, 16), 0) == Ok(n)
  {
    PrintRoundTrip(n, 16);
    var h := Print(n, 16);
    var s := "0x" + h;
    assert s[0] == '0' && s[1] == 'x' && s[2] == h[0] && h[0] in h && s[2..] == h;
    SignlessText(s);
    assert HexPrefix(s);
  }
}
