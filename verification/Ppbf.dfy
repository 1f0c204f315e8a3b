/** Fixed-size records one after another: 12 bytes each. */
module Records {
  import opened Wrappers
  import opened Scan

  type byte = x: int | 0 <= x < 256

  ghost function Written<T>(enc: T -> seq<byte>, s: seq<T>): seq<byte>
  {
    if s == [] then [] else Written(enc, s[..|s| - 1]) + enc(s[|s| - 1])
  }

  lemma WrittenAppend<T>(enc: T -> seq<byte>, s: seq<T>, x: T)
    ensures Written(enc, s + [x]) == Written(enc, s) + enc(x)
  {
    assert (s + [x])[..|s|] == s;
  }

  lemma {:induction false} WrittenLength<T>(enc: T -> seq<byte>, s: seq<T>)
    requires forall x :: |enc(x)| == 12
    ensures |Written(enc, s)| == 12 * |s|
  {
    if s != [] { WrittenLength(enc, s[..|s| - 1]); }
  }

  /** The n records in b, or a failure if one of them is rejected. */
  ghost function Parsed<T>(dec: seq<byte> -> Result<T>, b: seq<byte>, n: nat): (r: Result<seq<T>>)
    requires |b| == 12 * n
    ensures r.Ok? ==> |r.value| == n
    decreases n
  {
    if n == 0 then Ok([])
    else
      var init := Parsed(dec, b[..12 * (n - 1)], n - 1);
      var last := dec(b[12 * (n - 1)..]);
      if init.Err? || last.Err? then Err else Ok(init.value + [last.value])
  }

  lemma {:induction false} ParsedPrefixFails<T>(dec: seq<byte> -> Result<T>, b: seq<byte>, n: nat, k: nat)
    requires |b| == 12 * n && k <= n && Parsed(dec, b[..12 * k], k).Err?
    ensures Parsed(dec, b, n).Err?
    decreases n
  {
    if k == n {
      assert b[..12 * k] == b;
    } else {
      assert b[..12 * (n - 1)][..12 * k] == b[..12 * k];
      ParsedPrefixFails(dec, b[..12 * (n - 1)], n - 1, k);
    }
  }

  /** The next record of a longer list. */
  lemma ParsedNext<T>(dec: seq<byte> -> Result<T>, b: seq<byte>, k: nat)
    requires 12 * (k + 1) <= |b|
    ensures var item, init := dec(b[12 * k..12 * (k + 1)]), Parsed(dec, b[..12 * k], k);
      Parsed(dec, b[..12 * (k + 1)], k + 1) == if init.Err? || item.Err? then Err else Ok(init.value + [item.value])
  {
    var c := b[..12 * (k + 1)];
    assert c[..12 * k] == b[..12 * k] && c[12 * k..] == b[12 * k..12 * (k + 1)];
  }

  /** The list is read back exactly if every record is, record by record. */
  lemma {:induction false} ParsedWritten<T>(enc: T -> seq<byte>, dec: seq<byte> -> Result<T>, s: seq<T>)
    requires forall x :: |enc(x)| == 12
    ensures |Written(enc, s)| == 12 * |s|
    ensures var r := Parsed(dec, Written(enc, s), |s|);
      && (r.Ok? <==> forall i :: 0 <= i < |s| ==> dec(enc(s[i])).Ok?)
      && (r.Ok? ==> forall i :: 0 <= i < |s| ==> r.value[i] == dec(enc(s[i])).value)
  {
    WrittenLength(enc, s);
    if s != [] {
      var n := |s| - 1;
      ParsedWritten(enc, dec, s[..n]);
      var b := Written(enc, s);
      assert b[..12 * n] == Written(enc, s[..n]) && b[12 * n..] == enc(s[n]);
      assert forall i :: 0 <= i < n ==> s[..n][i] == s[i];
    }
  }

  /** Reads records up to the announced count or the end of the data. */
  method ReadRecords<T>(dec: seq<byte> -> Result<T>, payload: seq<byte>, count: nat) returns (r: Result<seq<T>>)
    ensures r.Ok? ==> 12 * count <= |payload| && r == Parsed(dec, payload[..12 * count], count)
    ensures r.Err? ==> |payload| < 12 * count || Parsed(dec, payload[..12 * count], count).Err?
  {
    var s: seq<T> := [];
    for i := 0 to count
      invariant 12 * i <= |payload| && Parsed(dec, payload[..12 * i], i) == Ok(s)
    {
      if 12 * (i + 1) > |payload| { return Err; }
      var e := dec(payload[12 * i..12 * (i + 1)]);
      ParsedNext(dec, payload, i);
      if e.Err? {
        if 12 * count <= |payload| {
          assert payload[..12 * count][..12 * (i + 1)] == payload[..12 * (i + 1)];
          ParsedPrefixFails(dec, payload[..12 * count], count, i + 1);
        }
        return Err;
      }
      s := s + [e.value];
    }
    r := Ok(s);
  }

  /** Appends the records of s to `head`. */
  method WriteRecords<T>(enc: T -> seq<byte>, head: seq<byte>, s: seq<T>) returns (b: seq<byte>)
    ensures b == head + Written(enc, s)
  {
    b := head;
    for i := 0 to |s|
      invariant b == head + Written(enc, s[..i])
    {
      assert s[..i + 1] == s[..i] + [s[i]];
      WrittenAppend(enc, s[..i], s[i]);
      Regroup(head, Written(enc, s[..i]), enc(s[i]));
      b := b + enc(s[i]);
    }
    assert s[..|s|] == s;
  }
}

/** The binary sequence format: a 48-byte header followed by 12 bytes per element, little-endian. */
module Ppbf {
  import opened Bits
  import opened Wrappers
  import opened Elements
  import opened Records


  // ----- little-endian integers

  function WriteLe(n: nat, k: nat): (b: seq<byte>)
    ensures |b| == k
    decreases k
  {
    if k == 0 then [] else [n % 256] + WriteLe(n / 256, k - 1)
  }

  function ReadLe(b: seq<byte>): nat
  {
    if b == [] then 0 else b[0] + 256 * ReadLe(b[1..])
  }

  /** n can be written in k bytes. */
  predicate Fits(n: nat, k: nat)
    decreases k
  {
    if k == 0 then n == 0 else Fits(n / 256, k - 1)
  }

  lemma {:induction false} LeRoundTrip(n: nat, k: nat)
    requires Fits(n, k)
    ensures ReadLe(WriteLe(n, k)) == n
    decreases k
  {
    if k > 0 {
      LeRoundTrip(n / 256, k - 1);
      assert WriteLe(n, k)[1..] == WriteLe(n / 256, k - 1);
    }
  }

  lemma {:induction false} ReadFits(b: seq<byte>)
    ensures Fits(ReadLe(b), |b|)
  {
    if b != [] {
      ReadFits(b[1..]);
      var n := ReadLe(b[1..]);
      assert (b[0] + 256 * n) / 256 == n;
    }
  }

  lemma FitsFour(n: nat)
    ensures Fits(n, 4) <==> n < U32_RANGE
  {
    assert Fits(n, 4) <==> n / 256 / 256 / 256 / 256 == 0;
  }

  lemma FitsEight(n: nat)
    requires n < U64_RANGE
    ensures Fits(n, 8)
  {
    var m := n / 256 / 256 / 256 / 256;
    FitsFour(m);
    assert Fits(n, 8) <==> Fits(m, 4);
  }

  function Read4(b: seq<byte>): (n: u32)
    requires |b| == 4
  {
    ReadFits(b);
    FitsFour(ReadLe(b));
    ReadLe(b)
  }

  // ----- elements

  function EncodeEl(e: El): (b: seq<byte>)
    ensures |b| == 12
  {
    WriteLe(NumberOf(e.control), 4) + WriteLe(e.count, 4) + WriteLe(NumberOf(e.value), 4)
  }

  function DecodeEl(b: seq<byte>): Result<El>
  {
    if |b| != 12 then Err else FromRaw(WordOf(Read4(b[..4])), Read4(b[4..8]), WordOf(Read4(b[8..])))
  }

  /** The elements whose three words say everything about them, kind by kind. */
  predicate Canonical(e: El)
  {
    match e.Type()
    case Trigger => e.count == 0
    case Replay => e.value <= POSITIONS
    case Retrig => e.count == 1
    case Prng => e.value == 0
    case Final => e.count == 1 && KindFromMode(e.control).Ok?
    case Regular => KindFromMode(e.control).Ok?
  }

  ghost predicate Gives(r: Result<El>, e: El) { r.Ok? && r.value.Same(e) }

  lemma CanonicalIff(e: El)
    ensures Gives(FromRaw(e.control, e.count, e.value), e) <==> Canonical(e)
  {
  }

  lemma Read4Of(n: u32)
    ensures Read4(WriteLe(n, 4)) == n
  {
    FitsFour(n);
    LeRoundTrip(n, 4);
  }

  lemma Thirds(a: seq<byte>, b: seq<byte>, c: seq<byte>)
    requires |a| == |b| == |c| == 4
    ensures (a + b + c)[..4] == a && (a + b + c)[4..8] == b && (a + b + c)[8..] == c
  {
  }

  lemma ThirdsDecode(a: seq<byte>, b: seq<byte>, c: seq<byte>)
    requires |a| == |b| == |c| == 4
    ensures DecodeEl(a + b + c) == FromRaw(WordOf(Read4(a)), Read4(b), WordOf(Read4(c)))
  {
    Thirds(a, b, c);
  }

  lemma WordBytes(w: word)
    ensures WordOf(Read4(WriteLe(NumberOf(w), 4))) == w
  {
    WordRoundTrip(w);
    Read4Of(NumberOf(w));
  }

  lemma ElRoundTrip(e: El)
    ensures DecodeEl(EncodeEl(e)) == FromRaw(e.control, e.count, e.value)
  {
    ThirdsDecode(WriteLe(NumberOf(e.control), 4), WriteLe(e.count, 4), WriteLe(NumberOf(e.value), 4));
    WordBytes(e.control);
    Read4Of(e.count);
    WordBytes(e.value);
  }

  ghost predicate AllCanonical(s: seq<El>) { forall i :: 0 <= i < |s| ==> Canonical(s[i]) }

  /** The twelve bytes of an element are decoded to an equal one exactly if it is canonical. */
  lemma ElementIff(e: El)
    ensures Gives(DecodeEl(EncodeEl(e)), e) <==> Canonical(e)
  {
    ElRoundTrip(e);
    CanonicalIff(e);
  }

  ghost predicate GivesAll(r: Result<seq<El>>, s: seq<El>) { r.Ok? && SameSequence(r.value, s) }

  lemma PayloadIff(s: seq<El>)
    ensures |Written(EncodeEl, s)| == 12 * |s|
    ensures GivesAll(Parsed(DecodeEl, Written(EncodeEl, s), |s|), s) <==> AllCanonical(s)
  {
    forall i | 0 <= i < |s| ensures Gives(DecodeEl(EncodeEl(s[i])), s[i]) <==> Canonical(s[i]) { ElementIff(s[i]); }
    ParsedWritten(EncodeEl, DecodeEl, s);
  }

  // ----- header

  /** Magic, version, byte order, payload kind, the four widths, flags and header size. */
  function Preamble(forceTrigger: bool): (b: seq<byte>)
    ensures |b| == 24
  {
    [0x50, 0x50, 0x42, 0x46, 1, 0, 1, 0] + [32, 0] + [32, 0] + [32, 0] + [8, 0]
    + [if forceTrigger then 1 else 0, 0, 0, 0] + [48, 0, 0, 0]
  }

  function Header(count: nat, forceTrigger: bool): (b: seq<byte>)
    ensures |b| == 48
  {
    Preamble(forceTrigger) + WriteLe(count, 8) + WriteLe((count * 12) % U64_RANGE, 8) + [0, 0, 0, 0, 0, 0, 0, 0]
  }

  predicate PreambleOk(h: seq<byte>)
    requires |h| == 24
  {
    && h[0] == 0x50 && h[1] == 0x50 && h[2] == 0x42 && h[3] == 0x46 && h[4] == 1 && h[6] == 1 && h[7] == 0
    && ReadLe(h[8..10]) == 32 && ReadLe(h[10..12]) == 32 && ReadLe(h[12..14]) == 32 && ReadLe(h[14..16]) == 8
    && ReadLe(h[20..24]) == 48
  }

  function ElementCount(h: seq<byte>): nat
    requires |h| == 48
  {
    ReadLe(h[24..32])
  }

  /** What the reader checks of the header; minor version, other flags and reserved words are ignored. */
  predicate HeaderOk(h: seq<byte>)
    requires |h| == 48
  {
    PreambleOk(h[..24]) && ReadLe(h[32..40]) == (ElementCount(h) * 12) % U64_RANGE
  }

  predicate ForceFlag(h: seq<byte>)
    requires |h| == 48
  {
    ReadLe(h[..24][16..20]) % 2 == 1
  }

  lemma PairLe(x: byte)
    ensures ReadLe([x, 0]) == x
  {
    assert [x, 0][1..] == [0] && ReadLe([0]) == 0 + 256 * ReadLe([0][1..]);
  }

  lemma QuadLe(x: byte)
    ensures ReadLe([x, 0, 0, 0]) == x
  {
    PairLe(0);
    assert [x, 0, 0, 0][1..] == [0, 0, 0];
    assert [0, 0, 0 as byte][1..] == [0, 0];
    assert ReadLe([0, 0, 0]) == 0 + 256 * ReadLe([0, 0]);
  }

  lemma PreambleRoundTrip(forceTrigger: bool)
    ensures PreambleOk(Preamble(forceTrigger))
    ensures ReadLe(Preamble(forceTrigger)[16..20]) % 2 == 1 <==> forceTrigger
  {
    var flag: byte := if forceTrigger then 1 else 0;
    PreambleParts([0x50, 0x50, 0x42, 0x46, 1, 0, 1, 0], [32, 0], [32, 0], [32, 0], [8, 0],
                  [flag, 0, 0, 0], [48, 0, 0, 0]);
    PairLe(32);
    PairLe(8);
    QuadLe(48);
    QuadLe(flag);
  }

  lemma PreambleParts(a: seq<byte>, b: seq<byte>, c: seq<byte>, d: seq<byte>, e: seq<byte>, f: seq<byte>, g: seq<byte>)
    requires |a| == 8 && |b| == |c| == |d| == |e| == 2 && |f| == |g| == 4
    ensures var h := a + b + c + d + e + f + g;
      && |h| == 24 && (forall i :: 0 <= i < 8 ==> h[i] == a[i])
      && h[8..10] == b && h[10..12] == c && h[12..14] == d && h[14..16] == e && h[16..20] == f && h[20..24] == g
  {
  }

  lemma Parts(a: seq<byte>, b: seq<byte>, c: seq<byte>, d: seq<byte>)
    requires |a| == 24 && |b| == 8 && |c| == 8 && |d| == 8
    ensures var h := a + b + c + d; |h| == 48 && h[..24] == a && h[24..32] == b && h[32..40] == c
  {
  }

  lemma HeaderRoundTrip(count: nat, forceTrigger: bool)
    requires count < U64_RANGE
    ensures var h := Header(count, forceTrigger);
      HeaderOk(h) && ElementCount(h) == count && (ForceFlag(h) <==> forceTrigger)
  {
    PreambleRoundTrip(forceTrigger);
    Parts(Preamble(forceTrigger), WriteLe(count, 8), WriteLe((count * 12) % U64_RANGE, 8), [0, 0, 0, 0, 0, 0, 0, 0]);
    FitsEight(count);
    FitsEight((count * 12) % U64_RANGE);
    LeRoundTrip(count, 8);
    LeRoundTrip((count * 12) % U64_RANGE, 8);
  }

  // ----- whole files

  ghost function Encode(s: seq<El>, forceTrigger: bool): seq<byte>
  {
    Header(|s|, forceTrigger) + Written(EncodeEl, s)
  }

  /** What a byte string means, or a failure if the reader throws on it. */
  ghost function Decode(b: seq<byte>): Result<(seq<El>, bool)>
  {
    if |b| < 48 || !HeaderOk(b[..48]) || |b| != 48 + 12 * ElementCount(b[..48]) then Err
    else
      var s := Parsed(DecodeEl, b[48..], ElementCount(b[..48]));
      if s.Err? || !FinalLast(s.value) then Err else Ok((s.value, ForceFlag(b[..48])))
  }

  ghost predicate Recovers(r: Result<(seq<El>, bool)>, s: seq<El>, forceTrigger: bool)
  {
    r.Ok? && SameSequence(r.value.0, s) && r.value.1 == forceTrigger
  }

  lemma EncodedParts(s: seq<El>, forceTrigger: bool)
    ensures var b := Encode(s, forceTrigger);
      |b| >= 48 && b[..48] == Header(|s|, forceTrigger) && b[48..] == Written(EncodeEl, s)
  {
  }

  lemma DecodeEncoded(s: seq<El>, forceTrigger: bool)
    requires |s| < U64_RANGE
    ensures |Written(EncodeEl, s)| == 12 * |s|
    ensures var r := Parsed(DecodeEl, Written(EncodeEl, s), |s|);
      Decode(Encode(s, forceTrigger)) == if r.Err? || !FinalLast(r.value) then Err else Ok((r.value, forceTrigger))
  {
    HeaderRoundTrip(|s|, forceTrigger);
    WrittenLength(EncodeEl, s);
    EncodedParts(s, forceTrigger);
  }

  /** A written sequence is read back, with its flag, exactly if it is canonical and any final element is last. */
  lemma BinaryRoundTrip(s: seq<El>, forceTrigger: bool)
    requires |s| < U64_RANGE
    ensures Recovers(Decode(Encode(s, forceTrigger)), s, forceTrigger) <==> AllCanonical(s) && FinalLast(s)
  {
    DecodeEncoded(s, forceTrigger);
    PayloadIff(s);
    var r := Parsed(DecodeEl, Written(EncodeEl, s), |s|);
    if GivesAll(r, s) { SameFinalLast(r.value, s); }
  }

  /** An accepted file has exactly the length its header announces ... */
  lemma AcceptedLength(b: seq<byte>)
    requires Decode(b).Ok?
    ensures |b| == 48 + 12 * |Decode(b).value.0|
  {
  }

  /** ... so cutting it short or appending to it always makes it invalid. */
  lemma PrefixFree(b: seq<byte>, c: seq<byte>)
    requires Decode(b).Ok? && c != []
    ensures Decode(b + c).Err?
    ensures forall n :: 0 <= n < |b| ==> Decode(b[..n]).Err?
  {
    assert (b + c)[..48] == b[..48];
    forall n | 0 <= n < |b| ensures Decode(b[..n]).Err? {
      if n >= 48 { assert b[..n][..48] == b[..48]; }
    }
  }

  /** `write_binary`. */
  method WriteBinary(s: seq<El>, forceTrigger: bool) returns (b: seq<byte>)
    ensures b == Encode(s, forceTrigger)
  {
    b := WriteRecords(EncodeEl, Header(|s|, forceTrigger), s);
  }

  /** `read_binary`: header checks, then the elements, then the end-of-file and final-element checks. */
  method ReadBinary(b: seq<byte>) returns (r: Result<(seq<El>, bool)>)
    ensures r == Decode(b)
  {
    if |b| < 48 { return Err; }
    var h := b[..48];
    if !HeaderOk(h) { return Err; }
    var count := ElementCount(h);
    var s := ReadRecords(DecodeEl, b[48..], count);
    if s.Err? {
      if |b| == 48 + 12 * count { assert b[48..][..12 * count] == b[48..]; }
      return Err;
    }
    if 48 + 12 * count != |b| { return Err; }
    assert b[48..][..12 * count] == b[48..];
    if exists i :: 0 <= i < |s.value| - 1 && s.value[i].IsFinal() { return Err; }
    return Ok((s.value, ForceFlag(h)));
  }

  // ----- what the constructors build

  /** The simple constructors build canonical elements only. */
  lemma SimpleAreCanonical(count: u32, value: word, pattern: bv8, mask: bv8, last: bool)
    ensures Canonical(Load(count, value)) && Canonical(TriggerEl(pattern, mask, last))
    ensures Canonical(RetrigEl(value)) && Canonical(PrngEl(count))
  {
  }

  /** A replay is refused exactly if it is too long, and canonical otherwise. */
  lemma ReplayIsCanonical(repetitions: u32, length: word)
    ensures ReplayEl(repetitions, length).Ok? <==> length <= POSITIONS
    ensures length <= POSITIONS ==> Canonical(ReplayEl(repetitions, length).value)
  {
  }

  /** A counter with a value: a trigger condition makes it a trigger, whose count is lost unless it is zero. */
  lemma RegularIsCanonicalIff(c: Counter, v: Value)
    ensures RegularEl(c, v).Ok?
    ensures Canonical(RegularEl(c, v).value) <==> v.kind.TriggerValue? ==> c.count == 0
  {
  }

  /** A final element: with a trigger condition it is a trigger of count 1 and does not survive. */
  lemma FinalIsCanonicalIff(v: Value)
    ensures FinalEl(v).Ok?
    ensures Canonical(FinalEl(v).value) <==> !v.kind.TriggerValue?
  {
  }
}
