/** The bytes of the binary format and of the staging buffer, position by position. */
module BinaryLayout {
  import opened Bits
  import opened Wrappers
  import opened Elements
  import opened Records
  import opened Ppbf
  import opened Scan
  import StagingBuffer

  // ----- little-endian numbers

  ghost function Weight(i: nat): nat { if i == 0 then 1 else 256 * Weight(i - 1) }

  /** Every byte times the weight of its position. */
  ghost function Sum(b: seq<byte>): nat
  {
    if b == [] then 0 else Sum(b[..|b| - 1]) + b[|b| - 1] * Weight(|b| - 1)
  }

  lemma Shifted(a: nat, s: nat, x: nat, w: nat)
    ensures a + 256 * (s + x * w) == a + 256 * s + x * (256 * w)
  {
  }

  lemma {:induction false} FirstByte(x: byte, b: seq<byte>)
    ensures Sum([x] + b) == x + 256 * Sum(b)
  {
    var c, n := [x] + b, |b|;
    if b == [] {
      assert c[..0] == [] && Weight(0) == 1;
    } else {
      FirstByte(x, b[..n - 1]);
      assert c[..n] == [x] + b[..n - 1] && c[n] == b[n - 1];
      Shifted(x, Sum(b[..n - 1]), b[n - 1], Weight(n - 1));
    }
  }

  lemma {:induction false} ReadIsSum(b: seq<byte>)
    ensures ReadLe(b) == Sum(b)
  {
    if b != [] {
      ReadIsSum(b[1..]);
      FirstByte(b[0], b[1..]);
      assert [b[0]] + b[1..] == b;
    }
  }

  // ----- elements

  /** Control word, count and value, four bytes each. */
  lemma ElementLayout(e: El)
    ensures var b := EncodeEl(e);
      Sum(b[..4]) == NumberOf(e.control) && Sum(b[4..8]) == e.count && Sum(b[8..]) == NumberOf(e.value)
  {
    WordRoundTrip(e.control);
    WordRoundTrip(e.value);
    NumberLayout(NumberOf(e.control), e.count, NumberOf(e.value));
  }

  lemma NumberLayout(control: u32, count: u32, value: u32)
    ensures var b := WriteLe(control, 4) + WriteLe(count, 4) + WriteLe(value, 4);
      Sum(b[..4]) == control && Sum(b[4..8]) == count && Sum(b[8..]) == value
  {
    Thirds(WriteLe(control, 4), WriteLe(count, 4), WriteLe(value, 4));
    NumberBytes(control);
    NumberBytes(count);
    NumberBytes(value);
  }

  lemma NumberBytes(n: u32)
    ensures Sum(WriteLe(n, 4)) == n
  {
    FitsFour(n);
    LeRoundTrip(n, 4);
    ReadIsSum(WriteLe(n, 4));
  }

  ghost function MemoryBytes(w: seq<u32>): seq<byte>
  {
    if w == [] then [] else MemoryBytes(w[..|w| - 1]) + WriteLe(w[|w| - 1], 4)
  }

  lemma OneMoreWord(w: seq<u32>, x: u32)
    ensures MemoryBytes(w + [x]) == MemoryBytes(w) + WriteLe(x, 4)
  {
    assert (w + [x])[..|w|] == w;
  }

  lemma ThreeWords(w: seq<u32>, a: u32, b: u32, c: u32)
    ensures MemoryBytes(w + [a] + [b] + [c]) == MemoryBytes(w) + (WriteLe(a, 4) + WriteLe(b, 4) + WriteLe(c, 4))
  {
    OneMoreWord(w, a);
    OneMoreWord(w + [a], b);
    OneMoreWord(w + [a] + [b], c);
    Regroup(MemoryBytes(w), WriteLe(a, 4) + WriteLe(b, 4), WriteLe(c, 4));
    Regroup(MemoryBytes(w), WriteLe(a, 4), WriteLe(b, 4));
  }

  /** The words of the last element, and those before. */
  lemma LastHeld(w: seq<u32>, s: seq<El>)
    requires s != [] && StagingBuffer.Holds(w, s) && |w| == 3 * |s|
    ensures var n, e := |s| - 1, s[|s| - 1];
      && StagingBuffer.Holds(w[..3 * n], s[..n])
      && w == w[..3 * n] + [StagingBuffer.Stored32(e.control)] + [e.count] + [StagingBuffer.Stored32(e.value)]
  {
    var n := |s| - 1;
    assert StagingBuffer.HoldsAt(w, n, s[n]);
    forall i | 0 <= i < n ensures StagingBuffer.HoldsAt(w[..3 * n], i, s[..n][i]) {
      assert StagingBuffer.HoldsAt(w, i, s[i]);
    }
  }

  /** What the staging buffer holds for a sequence are, as bytes, the elements of the binary format. */
  lemma {:induction false} StagedBytes(w: seq<u32>, s: seq<El>)
    requires StagingBuffer.Holds(w, s) && |w| == 3 * |s|
    ensures MemoryBytes(w) == Written(EncodeEl, s)
  {
    if s != [] {
      var n, e := |s| - 1, s[|s| - 1];
      LastHeld(w, s);
      StagedBytes(w[..3 * n], s[..n]);
      ThreeWords(w[..3 * n], StagingBuffer.Stored32(e.control), e.count, StagingBuffer.Stored32(e.value));
    }
  }

  // ----- the header

  /** Bytes 0 to 23, but for the minor version (5) and the flags (16 to 19). */
  ghost predicate PreambleBytes(h: seq<byte>)
    requires |h| >= 24
  {
    && h[0] == 0x50 && h[1] == 0x50 && h[2] == 0x42 && h[3] == 0x46 && h[4] == 1 && h[6] == 1 && h[7] == 0
    && h[8] == 32 && h[9] == 0 && h[10] == 32 && h[11] == 0 && h[12] == 32 && h[13] == 0 && h[14] == 8 && h[15] == 0
    && h[20] == 48 && h[21] == 0 && h[22] == 0 && h[23] == 0
  }

  lemma TwoBytes(b: seq<byte>, n: byte)
    requires |b| == 2
    ensures ReadLe(b) == n <==> b[0] == n && b[1] == 0
  {
    ReadIsSum(b);
    assert b[..1][..0] == [] && Sum(b[..1]) == b[0] && Weight(1) == 256;
  }

  lemma FourBytes(b: seq<byte>, n: byte)
    requires |b| == 4
    ensures ReadLe(b) == n <==> b[0] == n && b[1] == 0 && b[2] == 0 && b[3] == 0
  {
    var c, d := b[1..], b[2..];
    assert c[1..] == d && ReadLe(b) == b[0] + 256 * (b[1] + 256 * ReadLe(d));
    TwoBytes(d, 0);
  }

  lemma PreambleOkIff(h: seq<byte>)
    requires |h| == 24
    ensures PreambleOk(h) <==> PreambleBytes(h)
  {
    TwoBytes(h[8..10], 32);
    TwoBytes(h[10..12], 32);
    TwoBytes(h[12..14], 32);
    TwoBytes(h[14..16], 8);
    FourBytes(h[20..24], 48);
  }

  /** The header as bytes: its two counts agree, and bit 0 of byte 16 is the force flag. */
  lemma HeaderBytes(h: seq<byte>)
    requires |h| == 48
    ensures HeaderOk(h) <==> PreambleBytes(h) && Sum(h[32..40]) == 12 * Sum(h[24..32]) % U64_RANGE
    ensures ElementCount(h) == Sum(h[24..32])
    ensures ForceFlag(h) <==> h[16] % 2 == 1
  {
    PreambleOkIff(h[..24]);
    ReadIsSum(h[24..32]);
    ReadIsSum(h[32..40]);
    var flags := h[..24][16..20];
    assert flags[0] == h[16] && ReadLe(flags) == flags[0] + 256 * ReadLe(flags[1..]);
  }

  // ----- whole files

  /** The twelve bytes of record i. */
  ghost function RecordAt(b: seq<byte>, i: nat): seq<byte>
    requires 12 * i + 12 <= |b|
  {
    b[12 * i..12 * i + 12]
  }

  ghost predicate AreRecords(b: seq<byte>, s: seq<El>)
    requires |b| == 12 * |s|
  {
    forall i :: 0 <= i < |s| ==> DecodeEl(RecordAt(b, i)) == Ok(s[i])
  }

  lemma LastRecord(b: seq<byte>, s: seq<El>)
    requires s != [] && |b| == 12 * |s|
    ensures var n := |s| - 1;
      AreRecords(b, s) <==> AreRecords(b[..12 * n], s[..n]) && DecodeEl(b[12 * n..]) == Ok(s[n])
  {
    var n := |s| - 1;
    var c := b[..12 * n];
    forall i | 0 <= i < n ensures RecordAt(c, i) == RecordAt(b, i) && s[..n][i] == s[i] { }
    assert RecordAt(b, n) == b[12 * n..];
  }

  lemma {:induction false} RecordsIff(b: seq<byte>, s: seq<El>)
    requires |b| == 12 * |s|
    ensures Parsed(DecodeEl, b, |s|) == Ok(s) <==> AreRecords(b, s)
    decreases |s|
  {
    if s != [] {
      var n := |s| - 1;
      RecordsIff(b[..12 * n], s[..n]);
      LastRecord(b, s);
      LastOf(Parsed(DecodeEl, b[..12 * n], n), DecodeEl(b[12 * n..]), s);
    }
  }

  lemma LastOf(init: Result<seq<El>>, last: Result<El>, s: seq<El>)
    requires s != []
    ensures var n := |s| - 1;
      (if init.Err? || last.Err? then Err else Ok(init.value + [last.value])) == Ok(s)
      <==> init == Ok(s[..n]) && last == Ok(s[n])
  {
    assert s[..|s| - 1] + [s[|s| - 1]] == s;
    if init.Ok? && last.Ok? && init.value + [last.value] == s { assert s[..|init.value|] == init.value; }
  }

  lemma FileHeader(b: seq<byte>)
    requires |b| >= 48
    ensures HeaderOk(b[..48]) <==> PreambleBytes(b) && Sum(b[32..40]) == 12 * Sum(b[24..32]) % U64_RANGE
    ensures ElementCount(b[..48]) == Sum(b[24..32]) && (ForceFlag(b[..48]) <==> b[16] % 2 == 1)
  {
    var h := b[..48];
    HeaderBytes(h);
    assert h[24..32] == b[24..32] && h[32..40] == b[32..40];
  }

  lemma DecodedIs(b: seq<byte>, s: seq<El>, forceTrigger: bool)
    requires |b| >= 48
    ensures Decode(b) == Ok((s, forceTrigger)) <==>
      && HeaderOk(b[..48]) && |b| == 48 + 12 * ElementCount(b[..48]) && |s| == ElementCount(b[..48])
      && Parsed(DecodeEl, b[48..], |s|) == Ok(s) && FinalLast(s) && ForceFlag(b[..48]) == forceTrigger
  {
  }

  /**
    A byte string is accepted exactly if its header is right, it has the length its header announces,
    every record is an element and a final element comes last; then it means those elements.
  */
  lemma AcceptedIff(b: seq<byte>, s: seq<El>, forceTrigger: bool)
    requires |b| >= 48
    ensures Decode(b) == Ok((s, forceTrigger)) <==>
      && PreambleBytes(b) && Sum(b[24..32]) == |s| && Sum(b[32..40]) == 12 * |s| % U64_RANGE
      && |b| == 48 + 12 * |s| && (b[16] % 2 == 1 <==> forceTrigger)
      && AreRecords(b[48..], s) && FinalLast(s)
  {
    FileHeader(b);
    DecodedIs(b, s, forceTrigger);
    if |b| == 48 + 12 * |s| { RecordsIff(b[48..], s); }
  }

  lemma ShortIsRefused(b: seq<byte>)
    requires |b| < 48
    ensures Decode(b).Err?
  {
  }

  /** Three words are an element unless they are too long a replay or have a mode that is none. */
  lemma RawIsElement(control: word, count: u32, value: word)
    ensures FromRaw(control, count, value).Err? <==>
      || (TypeOf(control).Replay? && value > 8)
      || ((TypeOf(control).Regular? || TypeOf(control).Final?) && ModeOf(control) >= 0xB0)
  {
  }
}
