/** Reading the hardware's readback FIFO: bit fields out of 32-bit words, and the elements they make up. */
module FifoFields {
  import opened Wrappers
  import opened Elements
  import opened Scan

  /** `w >> n`. */
  function ShiftRight(w: nat, n: nat): nat
    decreases n
  {
    if n == 0 then w else ShiftRight(w / 2, n - 1)
  }

  /** `w << n`, without a width limit. */
  function ShiftLeft(w: nat, n: nat): nat
  {
    if n == 0 then w else 2 * ShiftLeft(w, n - 1)
  }

  /** `w & low_bits_mask(n)`. */
  function LowBits(w: nat, n: nat): nat
    decreases n
  {
    if n == 0 then 0 else 2 * LowBits(w / 2, n - 1) + w % 2
  }

  /** The low n bits of w, most significant first. */
  ghost function ToBits(w: nat, n: nat): (b: seq<bool>)
    ensures |b| == n
    decreases n
  {
    if n == 0 then [] else ToBits(w / 2, n - 1) + [w % 2 == 1]
  }

  /** The number that bits spell, most significant first. */
  ghost function ValueOf(b: seq<bool>): nat
  {
    if b == [] then 0 else 2 * ValueOf(b[..|b| - 1]) + if b[|b| - 1] then 1 else 0
  }

  /** All bits of a stream of words. */
  ghost function WordBits(words: seq<nat>): seq<bool>
  {
    if words == [] then [] else ToBits(words[0], 32) + WordBits(words[1..])
  }

  lemma {:induction false} WordBitsLength(words: seq<nat>)
    ensures |WordBits(words)| == 32 * |words|
  {
    if words != [] { WordBitsLength(words[1..]); }
  }

  // ----- shifts and masks as operations on bits

  /** Taking the top t of the low a bits leaves the low a - t bits. */
  lemma {:induction false} SplitBits(w: nat, a: nat, t: nat)
    requires t <= a
    ensures ToBits(w, a) == ToBits(ShiftRight(w, a - t), t) + ToBits(w, a - t)
    decreases a - t
  {
    if t == a {
      assert ToBits(w, a) + [] == ToBits(w, a);
    } else {
      SplitBits(w / 2, a - 1, t);
      var top := ToBits(ShiftRight(w, a - t), t);
      assert ToBits(w, a) == (top + ToBits(w / 2, a - 1 - t)) + [w % 2 == 1];
    }
  }

  lemma CutOff(w: nat, a: nat, t: nat, rest: seq<bool>)
    requires t <= a
    ensures ToBits(w, a) + rest == ToBits(ShiftRight(w, a - t), t) + (ToBits(w, a - t) + rest)
  {
    SplitBits(w, a, t);
    Regroup(ToBits(ShiftRight(w, a - t), t), ToBits(w, a - t), rest);
  }

  lemma {:induction false} MaskedValue(w: nat, n: nat)
    ensures ValueOf(ToBits(w, n)) == LowBits(w, n)
    decreases n
  {
    if n > 0 {
      assert ToBits(w, n)[..n - 1] == ToBits(w / 2, n - 1);
      MaskedValue(w / 2, n - 1);
    }
  }

  /** A shift divides and a mask takes the remainder, by the power of two. */
  lemma {:induction false} ShiftDivides(w: nat, n: nat)
    ensures ShiftLeft(1, n) > 0 && ShiftRight(w, n) == w / ShiftLeft(1, n) && LowBits(w, n) == w % ShiftLeft(1, n)
    decreases n
  {
    if n > 0 {
      ShiftDivides(w / 2, n - 1);
      HalfDivides(w, ShiftLeft(1, n - 1));
    }
  }

  lemma HalfDivides(w: nat, p: nat)
    requires p > 0
    ensures w / (2 * p) == w / 2 / p && w % (2 * p) == 2 * (w / 2 % p) + w % 2
  {
    var q, r := w / 2 / p, w / 2 % p;
    assert w / 2 == q * p + r;
    Quotient(w, 2 * p, q, 2 * r + w % 2);
  }

  lemma Quotient(w: nat, d: nat, q: nat, r: nat)
    requires d > 0 && w == q * d + r && r < d
    ensures w / d == q && w % d == r
  {
    var k, s := w / d, w % d;
    assert w == k * d + s;
    SmallMultiple(k - q, d, r - s);
  }

  lemma Grows(a: nat, x: int, y: int)
    requires x <= y
    ensures x * a <= y * a
  {
    assert y * a - x * a == (y - x) * a;
  }

  lemma SmallMultiple(e: int, d: int, x: int)
    requires d > 0 && e * d == x && -d < x < d
    ensures e == 0
  {
    if e >= 1 { Grows(d, 1, e); }
    if e <= -1 { Grows(d, e, -1); }
  }

  lemma {:induction false} ValueConcat(a: seq<bool>, b: seq<bool>)
    ensures ValueOf(a + b) == ShiftLeft(ValueOf(a), |b|) + ValueOf(b)
  {
    if b == [] {
      assert a + b == a;
    } else {
      var n := |b| - 1;
      assert (a + b)[..|a| + n] == a + b[..n];
      ValueConcat(a, b[..n]);
    }
  }

  // ----- the reader

  /** What is left of a FIFO after reading some words. */
  ghost predicate IsRest(rest: seq<u32>, all: seq<u32>) { |rest| <= |all| && rest == all[|all| - |rest|..] }

  lemma RestOfRest(all: seq<u32>, before: seq<u32>, after: seq<u32>)
    requires IsRest(before, all) && (after == before || (before != [] && after == before[1..]))
    ensures IsRest(after, all)
  {
  }

  function CeilDiv(n: nat, d: nat): nat
    requires d > 0
  {
    (n + d - 1) / d
  }

  class FieldReader {
    var word: nat
    var bitsAvailable: nat
    var fifo: seq<u32>

    ghost predicate Valid()
      reads this
    {
      bitsAvailable <= 32
    }

    /** The bits not yet returned: the rest of the current word, then the FIFO. */
    ghost function Pending(): seq<bool>
      reads this
    {
      ToBits(word, bitsAvailable) + WordBits(fifo)
    }

    constructor (words: seq<u32>)
      ensures Valid() && bitsAvailable == 0 && fifo == words && Pending() == WordBits(words)
    {
      word, bitsAvailable, fifo := 0, 0, words;
    }

    /** Fetches a word when the current one is used up; fails when the FIFO has run dry. */
    method Refill() returns (ok: bool)
      requires Valid()
      modifies this
      ensures Valid() && Pending() == old(Pending())
      ensures ok <==> bitsAvailable > 0
      ensures ok <==> old(bitsAvailable) > 0 || old(fifo) != []
      ensures if old(bitsAvailable) > 0 || !ok then fifo == old(fifo) && bitsAvailable == old(bitsAvailable)
              else bitsAvailable == 32 && fifo == old(fifo)[1..]
    {
      if bitsAvailable == 0 {
        if fifo == [] { return false; }
        word, fifo := fifo[0], fifo[1..];
        bitsAvailable := 32;
      }
      ok := true;
    }

    /** Cuts `take` bits off the current word. */
    method TakeChunk(take: nat) returns (chunk: nat, ghost bits: seq<bool>)
      requires Valid() && take <= bitsAvailable
      modifies this`bitsAvailable
      ensures Valid() && bitsAvailable == old(bitsAvailable) - take
      ensures old(Pending()) == bits + Pending() && |bits| == take && chunk == ValueOf(bits)
    {
      var shift := bitsAvailable - take;
      var top := ShiftRight(word, shift);
      chunk := LowBits(top, take);
      bits := ToBits(top, take);
      CutOff(word, bitsAvailable, take, WordBits(fifo));
      MaskedValue(top, take);
      bitsAvailable := shift;
    }

    /** Bits still held, in the current word and in the FIFO. */
    function Held(): int
      reads this
    {
      bitsAvailable + 32 * |fifo|
    }

    /** One round of the loop: up to `remaining` bits from the current word. */
    method NextChunk(remaining: nat) returns (ok: bool, take: nat, chunk: nat, ghost bits: seq<bool>)
      requires Valid() && remaining > 0
      modifies this
      ensures !ok ==> old(Pending()) == []
      ensures ok ==> Valid() && 0 < take <= remaining && old(Pending()) == bits + Pending() && |bits| == take
      ensures ok ==> chunk == ValueOf(bits) && bitsAvailable < 32 && Held() == old(Held()) - take
      ensures fifo == old(fifo) || (old(fifo) != [] && fifo == old(fifo)[1..])
    {
      take, chunk, bits := 0, 0, [];
      ok := Refill();
      if ok {
        take := if remaining < bitsAvailable then remaining else bitsAvailable;
        chunk, bits := TakeChunk(take);
      }
    }

    /**
      `read_fifo_field`: the next `width` bits of the stream, most significant first, fetching
      only as many words as they need. Fails exactly when the stream is too short.
    */
    method ReadField(width: nat) returns (r: Result<nat>, ghost bits: seq<bool>)
      requires Valid()
      modifies this
      ensures r.Ok? <==> width <= |old(Pending())|
      ensures r.Ok? ==> Valid() && old(Pending()) == bits + Pending() && |bits| == width && r.value == ValueOf(bits)
      ensures r.Ok? ==> Held() == old(Held()) - width && (width == 0 || bitsAvailable < 32)
      ensures r.Ok? && width == 0 ==> bitsAvailable == old(bitsAvailable)
      ensures IsRest(fifo, old(fifo))
    {
      var result: nat, remaining: nat := 0, width;
      bits := [];
      while remaining > 0
        invariant Valid() && remaining <= width && |bits| == width - remaining
        invariant old(Pending()) == bits + Pending() && result == ValueOf(bits)
        invariant Held() == old(Held()) - |bits|
        invariant if remaining < width then bitsAvailable < 32 else bitsAvailable == old(bitsAvailable)
        invariant IsRest(fifo, old(fifo))
      {
        var ok, take, chunk;
        ghost var more, before := [], fifo;
        ok, take, chunk, more := NextChunk(remaining);
        RestOfRest(old(fifo), before, fifo);
        if !ok { return Err, []; }
        ValueConcat(bits, more);
        Regroup(bits, more, Pending());
        bits := bits + more;
        result := ShiftLeft(result, take) + chunk;
        remaining := remaining - take;
      }
      r := Ok(result);
    }

    /**
      A series of reads: the fields are consecutive slices of the stream, and a reader that
      started empty has fetched exactly enough words for them.
    */
    method ReadFields(widths: seq<nat>) returns (r: Result<seq<nat>>, ghost fields: seq<seq<bool>>)
      requires Valid() && bitsAvailable == 0
      modifies this
      ensures r.Ok? <==> Total(widths) <= |old(Pending())|
      ensures r.Ok? ==> Valid() && old(Pending()) == Flatten(fields) + Pending() && Cut(widths, fields, r.value)
      ensures r.Ok? ==> |old(fifo)| - |fifo| == CeilDiv(Total(widths), 32)
    {
      var values := [];
      fields := [];
      for k := 0 to |widths|
        invariant Valid() && old(Pending()) == Flatten(fields) + Pending()
        invariant Cut(widths[..k], fields, values)
        invariant Held() == old(Held()) - |Flatten(fields)| && bitsAvailable < 32
      {
        var field;
        ghost var bits;
        ghost var before := Pending();
        field, bits := ReadField(widths[k]);
        if field.Err? {
          TooShort(widths, k, fields, values, |before|);
          return Err, [];
        }
        Regroup(Flatten(fields), bits, Pending());
        CutAppend(widths, k, fields, values, bits, field.value);
        fields, values := fields + [bits], values + [field.value];
      }
      assert widths[..|widths|] == widths;
      CutTotal(widths, fields, values);
      Fetched(bitsAvailable, |fifo|, |old(fifo)|, Total(widths));
      r := Ok(values);
    }

    /** A field as wide as a word, from a reader between words. */
    method ReadWord() returns (w: u32)
      requires Valid() && bitsAvailable == 0 && fifo != []
      modifies this
      ensures Valid() && bitsAvailable == 0 && w == old(fifo)[0] && fifo == old(fifo)[1..]
    {
      ghost var words := fifo;
      ghost var stream := Pending();
      assert stream == WordBits(words);
      WordBitsLength(words);
      var field;
      ghost var bits;
      field, bits := ReadField(32);
      FirstWord(words, bits, Pending());
      w := field.value;
    }

    /** `readback::read`: the control word is read but not used, and the element is a load. */
    method ReadElement() returns (r: Result<El>)
      modifies this
      ensures r.Err? <==> |old(fifo)| < 3
      ensures r.Err? ==> fifo == old(fifo)
      ensures r.Ok? ==> fifo == old(fifo)[3..] && r.value == Load(old(fifo)[1], WordOf(old(fifo)[2]))
    {
      if |fifo| < 3 { return Err; }
      word, bitsAvailable := 0, 0;
      var control := ReadWord();
      var count := ReadWord();
      var value := ReadWord();
      r := Ok(Load(count, WordOf(value)));
    }
  }

  // ----- elements

  /** The elements that words from the FIFO make up: control, count and value, of which the control word is ignored. */
  function Recorded(words: seq<u32>): seq<El>
  {
    if |words| < 3 then [] else [Load(words[1], WordOf(words[2]))] + Recorded(words[3..])
  }

  lemma {:induction false} AllLowBits(w: nat, n: nat)
    requires w < ShiftLeft(1, n)
    ensures LowBits(w, n) == w
    decreases n
  {
    if n > 0 { AllLowBits(w / 2, n - 1); }
  }

  lemma FourMore(n: nat)
    ensures ShiftLeft(1, n + 4) == 16 * ShiftLeft(1, n)
  {
    assert ShiftLeft(1, n + 4) == 2 * ShiftLeft(1, n + 3) == 4 * ShiftLeft(1, n + 2) == 8 * ShiftLeft(1, n + 1);
  }

  /** A field as wide as a word is the word. */
  lemma WholeWord(w: u32)
    ensures ValueOf(ToBits(w, 32)) == w
  {
    MaskedValue(w, 32);
    FourMore(0);
    FourMore(4);
    FourMore(8);
    FourMore(12);
    FourMore(16);
    FourMore(20);
    FourMore(24);
    FourMore(28);
    AllLowBits(w, 32);
  }

  lemma FirstWord(words: seq<u32>, bits: seq<bool>, rest: seq<bool>)
    requires words != [] && |bits| == 32 && WordBits(words) == bits + rest
    ensures ValueOf(bits) == words[0]
  {
    WholeWord(words[0]);
    assert bits == (bits + rest)[..32] == ToBits(words[0], 32);
  }

  lemma Fetched(available: nat, left: nat, before: nat, total: nat)
    requires available < 32 && available + 32 * left == 32 * before - total
    ensures before - left == CeilDiv(total, 32)
  {
  }

  lemma TooShort(widths: seq<nat>, k: nat, fields: seq<seq<bool>>, values: seq<nat>, pending: nat)
    requires k < |widths| && Cut(widths[..k], fields, values) && pending < widths[k]
    ensures |Flatten(fields)| + pending < Total(widths)
  {
    CutTotal(widths[..k], fields, values);
    assert widths[..k + 1] == widths[..k] + [widths[k]];
    TotalAppend(widths[..k], widths[k]);
    TotalPrefix(widths, k + 1);
  }

  lemma CutAppend(widths: seq<nat>, k: nat, fields: seq<seq<bool>>, values: seq<nat>, bits: seq<bool>, v: nat)
    requires k < |widths| && Cut(widths[..k], fields, values) && |bits| == widths[k] && v == ValueOf(bits)
    ensures Cut(widths[..k + 1], fields + [bits], values + [v])
    ensures Flatten(fields + [bits]) == Flatten(fields) + bits
  {
    FlattenAppend(fields, bits);
  }

  /** Each field has its width and its value is the number it spells. */
  ghost predicate Cut(widths: seq<nat>, fields: seq<seq<bool>>, values: seq<nat>)
  {
    && |fields| == |widths| == |values|
    && forall i :: 0 <= i < |fields| ==> |fields[i]| == widths[i] && values[i] == ValueOf(fields[i])
  }

  ghost function Flatten(fields: seq<seq<bool>>): seq<bool>
  {
    if fields == [] then [] else Flatten(fields[..|fields| - 1]) + fields[|fields| - 1]
  }

  lemma FlattenAppend(fields: seq<seq<bool>>, f: seq<bool>)
    ensures Flatten(fields + [f]) == Flatten(fields) + f
  {
    assert (fields + [f])[..|fields|] == fields;
  }

  ghost function Total(widths: seq<nat>): nat
  {
    if widths == [] then 0 else Total(widths[..|widths| - 1]) + widths[|widths| - 1]
  }

  lemma TotalAppend(widths: seq<nat>, w: nat)
    ensures Total(widths + [w]) == Total(widths) + w
  {
    assert (widths + [w])[..|widths|] == widths;
  }

  lemma {:induction false} CutTotal(widths: seq<nat>, fields: seq<seq<bool>>, values: seq<nat>)
    requires Cut(widths, fields, values)
    ensures |Flatten(fields)| == Total(widths)
  {
    if fields != [] {
      var n := |fields| - 1;
      CutTotal(widths[..n], fields[..n], values[..n]);
    }
  }

  lemma {:induction false} TotalPrefix(widths: seq<nat>, k: nat)
    requires k <= |widths|
    ensures Total(widths[..k]) <= Total(widths)
  {
    if k < |widths| {
      TotalPrefix(widths[..|widths| - 1], k);
      assert widths[..|widths| - 1][..k] == widths[..k];
    } else {
      assert widths[..k] == widths;
    }
  }
}
