/** An SPI receiver that reads a pin waveform, written without reference to the builder. */
module SpiReceiver {
  import opened Bits

  datatype BitOrder = MsbFirst | LsbFirst

  type Pin = i: word | i < 32

  /** The wiring and the mode, as the device on the other end knows them. */
  datatype Wiring = Wiring(mode: nat, sclk: Pin, mosi: Pin, cs: Pin, csActiveHigh: bool)

  /**
    `bits` is what was clocked in since chip select became active, `frames` the finished
    transactions. `clean` says that MOSI was stable from the tick before every sampling edge.
  */
  datatype Rx = Rx(sclk: bool, mosi: bool, active: bool, bits: seq<bool>, frames: seq<seq<bool>>, clean: bool)

  /** Modes 0 and 3 sample on the rising edge, modes 1 and 2 on the falling edge. */
  predicate SampleOnRise(mode: nat) { mode == 0 || mode == 3 }

  /** The clock idles high in modes 2 and 3. */
  predicate IdleHigh(mode: nat) { mode == 2 || mode == 3 }

  function Open(rx: Rx): seq<bool> { if rx.active then rx.bits else [] }

  function Tick(mode: nat, rx: Rx, sclk: bool, mosi: bool, active: bool): Rx
  {
    if !active then
      Rx(sclk, mosi, false, [], if rx.active then rx.frames + [rx.bits] else rx.frames, rx.clean)
    else if rx.sclk != sclk && sclk == SampleOnRise(mode) then
      Rx(sclk, mosi, true, Open(rx) + [mosi], rx.frames, rx.clean && rx.active && rx.mosi == mosi)
    else
      Rx(sclk, mosi, true, Open(rx), rx.frames, rx.clean)
  }

  /** One clock tick of the receiver. */
  function Receiver(w: Wiring): (Rx, word) -> Rx
  {
    (rx: Rx, pins: word) => Tick(w.mode, rx, High(pins, w.sclk), High(pins, w.mosi), High(pins, w.cs) == w.csActiveHigh)
  }

  function PowerUp(w: Wiring): Rx { Rx(IdleHigh(w.mode), false, false, [], [], true) }

  /** The byte that eight received bits stand for. */
  function ByteOf(order: BitOrder, b: seq<bool>): bv8
    requires |b| == 8
  {
    match order
    case MsbFirst => Weigh(b[7], b[6], b[5], b[4], b[3], b[2], b[1], b[0])
    case LsbFirst => Weigh(b[0], b[1], b[2], b[3], b[4], b[5], b[6], b[7])
  }

  function Weigh(b0: bool, b1: bool, b2: bool, b3: bool, b4: bool, b5: bool, b6: bool, b7: bool): bv8
  {
    (if b0 then 1 else 0) | (if b1 then 2 else 0) | (if b2 then 4 else 0) | (if b3 then 8 else 0)
    | (if b4 then 16 else 0) | (if b5 then 32 else 0) | (if b6 then 64 else 0) | (if b7 then 128 else 0)
  }

  /** Whole bytes of a frame; trailing bits that do not fill a byte are dropped. */
  function BytesOf(order: BitOrder, bits: seq<bool>): seq<bv8>
  {
    if |bits| < 8 then [] else [ByteOf(order, bits[..8])] + BytesOf(order, bits[8..])
  }
}

module Spi {
  import opened Bits
  import opened Wrappers
  import opened Elements
  import opened PulseSequence
  import opened Scan
  import opened SpiReceiver

  datatype Config = Config(
    decoderClockHz: real, spiClockHz: real, mode: nat, order: BitOrder,
    bitSclk: word, bitMosi: word, bitCs: word, bitAux: word,
    csActiveHigh: bool, auxDefault: bool,
    selectSetup: u32, deselectHold: u32, postIdle: u32)

  predicate ConfigOk(c: Config)
  {
    && c.mode <= 3 && c.decoderClockHz > 0.0 && c.spiClockHz > 0.0
    && c.bitSclk < 32 && c.bitMosi < 32 && c.bitCs < 32 && c.bitAux < 32
    && c.bitSclk != c.bitMosi && c.bitSclk != c.bitCs && c.bitSclk != c.bitAux
    && c.bitMosi != c.bitCs && c.bitMosi != c.bitAux && c.bitCs != c.bitAux
  }

  /** Clock ticks per half SPI period, rounded to the nearest and at least one. */
  function HalfPeriod(c: Config): (r: Result<u32>)
    requires ConfigOk(c)
    ensures r.Ok? ==> r.value >= 1
  {
    var rounded := (c.decoderClockHz / (2.0 * c.spiClockHz) + 0.5).Floor;
    if rounded > U32_MAX then Err else if rounded < 1 then Ok(1) else Ok(rounded)
  }

  lemma Scaled(a: real, b: real, y: real)
    requires y > 0.0
    ensures a >= b <==> a * y >= b * y
  {
    assert a * y - b * y == (a - b) * y;
  }

  /** `floor(x / (2y) + 1/2)` is the whole number of which (2k - 1) y and (2k + 1) y enclose x. */
  lemma RoundedRatio(x: real, y: real, k: int)
    requires y > 0.0
    ensures (x / (2.0 * y) + 0.5).Floor >= k <==> x >= (2 * k - 1) as real * y
  {
    var q := x / (2.0 * y);
    assert q * (2.0 * y) == (2.0 * q) * y == x;
    Scaled(2.0 * q, (2 * k - 1) as real, y);
    assert (q + 0.5).Floor >= k <==> 2.0 * q >= (2 * k - 1) as real;
  }

  /**
    The SPI clock is met to within half a tick per half period: r ticks are used exactly if the
    decoder clock is (2r - 1) to (2r + 1) times the SPI clock, one tick also for every faster SPI
    clock, and a slower one than 2^32-1 ticks allow is refused.
  */
  lemma HalfPeriodIsNearest(c: Config, k: u32)
    requires ConfigOk(c) && k >= 1
    ensures HalfPeriod(c) == Ok(k) <==>
      && c.decoderClockHz < (2 * k + 1) as real * c.spiClockHz
      && (k == 1 || (2 * k - 1) as real * c.spiClockHz <= c.decoderClockHz)
    ensures HalfPeriod(c).Err? <==> (2 * U32_MAX + 1) as real * c.spiClockHz <= c.decoderClockHz
  {
    RoundedRatio(c.decoderClockHz, c.spiClockHz, k);
    RoundedRatio(c.decoderClockHz, c.spiClockHz, k + 1);
    RoundedRatio(c.decoderClockHz, c.spiClockHz, U32_MAX + 1);
    assert 2 * (k + 1) - 1 == 2 * k + 1 && 2 * (U32_MAX + 1) - 1 == 2 * U32_MAX + 1;
  }

  function WiringOf(c: Config): Wiring
    requires ConfigOk(c)
  {
    Wiring(c.mode, c.bitSclk, c.bitMosi, c.bitCs, c.csActiveHigh)
  }

  predicate CsLevel(c: Config, selected: bool) { if c.csActiveHigh then selected else !selected }

  /** A level placed on a pin. */
  function Level(a: bool, p: word): word
    requires p < 32
  {
    Flag(a) << p
  }

  function Or4(x: word, y: word, z: word, t: word): word { x | y | z | t }

  /** Four levels placed on four pins. */
  function Place(a: bool, p: word, b: bool, q: word, c: bool, r: word, d: bool, s: word): word
    requires p < 32 && q < 32 && r < 32 && s < 32
  {
    Or4(Level(a, p), Level(b, q), Level(c, r), Level(d, s))
  }

  function ComposePins(c: Config, sclk: bool, mosi: bool, selected: bool, aux: bool): word
    requires ConfigOk(c)
  {
    Place(sclk, c.bitSclk, mosi, c.bitMosi, CsLevel(c, selected), c.bitCs, aux, c.bitAux)
  }

  // ----- pins and receiver

  lemma LevelItself(a: bool, p: word)
    requires p < 32
    ensures High(Level(a, p), p) == a
  {
  }

  lemma LevelElsewhere(a: bool, p: word, j: word)
    requires p < 32 && j < 32 && j != p
    ensures !High(Level(a, p), j)
  {
  }

  lemma HighLeft(x: word, y: word, j: word)
    requires j < 32 && High(x, j)
    ensures High(x | y, j)
  {
  }

  lemma HighRight(x: word, y: word, j: word)
    requires j < 32 && High(y, j)
    ensures High(x | y, j)
  {
  }

  lemma BothLow(x: word, y: word, j: word)
    requires j < 32 && !High(x, j) && !High(y, j)
    ensures !High(x | y, j)
  {
  }

  lemma HighOr(x: word, y: word, j: word)
    requires j < 32
    ensures High(x | y, j) <==> High(x, j) || High(y, j)
  {
    if High(x, j) {
      HighLeft(x, y, j);
    } else if High(y, j) {
      HighRight(x, y, j);
    } else {
      BothLow(x, y, j);
    }
  }

  lemma HighOr4(x: word, y: word, z: word, t: word, j: word)
    requires j < 32
    ensures High(Or4(x, y, z, t), j) <==> High(x, j) || High(y, j) || High(z, j) || High(t, j)
  {
    HighOr(x, y, j);
    HighOr(x | y, z, j);
    HighOr(x | y | z, t, j);
  }

  /** The four levels are placed on distinct pins, so each reads back. */
  lemma FirstLevel(a: bool, p: word, b: bool, q: word, c: bool, r: word, d: bool, s: word)
    requires p < 32 && q < 32 && r < 32 && s < 32 && p != q && p != r && p != s
    ensures High(Place(a, p, b, q, c, r, d, s), p) == a
  {
    HighOr4(Level(a, p), Level(b, q), Level(c, r), Level(d, s), p);
    LevelItself(a, p);
    LevelElsewhere(b, q, p);
    LevelElsewhere(c, r, p);
    LevelElsewhere(d, s, p);
  }

  lemma SecondLevel(a: bool, p: word, b: bool, q: word, c: bool, r: word, d: bool, s: word)
    requires p < 32 && q < 32 && r < 32 && s < 32 && q != p && q != r && q != s
    ensures High(Place(a, p, b, q, c, r, d, s), q) == b
  {
    HighOr4(Level(a, p), Level(b, q), Level(c, r), Level(d, s), q);
    LevelItself(b, q);
    LevelElsewhere(a, p, q);
    LevelElsewhere(c, r, q);
    LevelElsewhere(d, s, q);
  }

  lemma ThirdLevel(a: bool, p: word, b: bool, q: word, c: bool, r: word, d: bool, s: word)
    requires p < 32 && q < 32 && r < 32 && s < 32 && r != p && r != q && r != s
    ensures High(Place(a, p, b, q, c, r, d, s), r) == c
  {
    HighOr4(Level(a, p), Level(b, q), Level(c, r), Level(d, s), r);
    LevelItself(c, r);
    LevelElsewhere(a, p, r);
    LevelElsewhere(b, q, r);
    LevelElsewhere(d, s, r);
  }

  lemma SclkReadsBack(c: Config, sclk: bool, mosi: bool, selected: bool, aux: bool)
    requires ConfigOk(c)
    ensures High(ComposePins(c, sclk, mosi, selected, aux), c.bitSclk) == sclk
  {
    FirstLevel(sclk, c.bitSclk, mosi, c.bitMosi, CsLevel(c, selected), c.bitCs, aux, c.bitAux);
  }

  lemma MosiReadsBack(c: Config, sclk: bool, mosi: bool, selected: bool, aux: bool)
    requires ConfigOk(c)
    ensures High(ComposePins(c, sclk, mosi, selected, aux), c.bitMosi) == mosi
  {
    SecondLevel(sclk, c.bitSclk, mosi, c.bitMosi, CsLevel(c, selected), c.bitCs, aux, c.bitAux);
  }

  lemma CsReadsBack(c: Config, sclk: bool, mosi: bool, selected: bool, aux: bool)
    requires ConfigOk(c)
    ensures High(ComposePins(c, sclk, mosi, selected, aux), c.bitCs) == CsLevel(c, selected)
  {
    ThirdLevel(sclk, c.bitSclk, mosi, c.bitMosi, CsLevel(c, selected), c.bitCs, aux, c.bitAux);
  }

  /** A receiver with the same wiring reads back the levels that were composed. */
  lemma PinsDecode(c: Config, sclk: bool, mosi: bool, selected: bool, aux: bool)
    requires ConfigOk(c)
    ensures var pins := ComposePins(c, sclk, mosi, selected, aux);
      High(pins, c.bitSclk) == sclk && High(pins, c.bitMosi) == mosi && High(pins, c.bitCs) == CsLevel(c, selected)
  {
    SclkReadsBack(c, sclk, mosi, selected, aux);
    MosiReadsBack(c, sclk, mosi, selected, aux);
    CsReadsBack(c, sclk, mosi, selected, aux);
  }

  lemma ReceivePins(c: Config, rx: Rx, sclk: bool, mosi: bool, selected: bool, pins: word)
    requires ConfigOk(c)
    requires High(pins, c.bitSclk) == sclk && High(pins, c.bitMosi) == mosi
    requires High(pins, c.bitCs) == CsLevel(c, selected)
    ensures Receiver(WiringOf(c))(rx, pins) == Tick(c.mode, rx, sclk, mosi, selected)
  {
  }

  lemma TickHold(mode: nat, rx: Rx, sclk: bool, mosi: bool, active: bool)
    ensures var rx' := Tick(mode, rx, sclk, mosi, active); Tick(mode, rx', sclk, mosi, active) == rx'
  {
  }

  /** Holding the pins adds nothing after the first tick. */
  lemma {:induction false} HoldPins(w: Wiring, rx: Rx, pins: word, n: nat)
    requires n > 0
    ensures End(Receiver(w), rx, Repeat(pins, n)) == Receiver(w)(rx, pins)
    decreases n
  {
    var rx' := Receiver(w)(rx, pins);
    assert Repeat(pins, n)[0] == pins && Repeat(pins, n)[1..] == Repeat(pins, n - 1);
    if n > 1 {
      HoldPins(w, rx', pins, n - 1);
      TickHold(w.mode, rx, High(pins, w.sclk), High(pins, w.mosi), High(pins, w.cs) == w.csActiveHigh);
    }
  }

  /** What a receiver has seen after a waveform. */
  ghost function Seen(c: Config, wave: seq<word>): Rx
    requires ConfigOk(c)
  {
    End(Receiver(WiringOf(c)), PowerUp(WiringOf(c)), wave)
  }

  lemma SeenMore(c: Config, wave: seq<word>, pins: word, ticks: nat)
    requires ConfigOk(c) && ticks > 0
    ensures Seen(c, wave + Repeat(pins, ticks)) == Receiver(WiringOf(c))(Seen(c, wave), pins)
  {
    var w := WiringOf(c);
    EndConcat(Receiver(w), PowerUp(w), wave, Repeat(pins, ticks));
    HoldPins(w, Seen(c, wave), pins, ticks);
  }

  // ----- the run-length sequence

  /** Appends one state, extending the last run if it has the same pins. */
  function Push(s: seq<El>, x: El): Result<seq<El>>
  {
    if s == [] || !Mergeable(s[|s| - 1], x) then Ok(s + [x])
    else
      var n := |s| - 1;
      var sum := CheckedCountSum(s[n].count, x.count);
      if sum.Err? then Err else Ok(s[..n] + [s[n].WithCount(sum.value)])
  }

  ghost function PushAll(s: seq<El>, states: seq<El>): Result<seq<El>>
    decreases states
  {
    if states == [] then Ok(s)
    else
      var t := Push(s, states[0]);
      if t.Err? then Err else PushAll(t.value, states[1..])
  }

  lemma {:induction false} PushAllConcat(s: seq<El>, a: seq<El>, b: seq<El>)
    ensures var t := PushAll(s, a); PushAll(s, a + b) == if t.Err? then Err else PushAll(t.value, b)
    decreases a
  {
    if a == [] {
      assert a + b == b;
    } else {
      assert (a + b)[0] == a[0] && (a + b)[1..] == a[1..] + b;
      var t := Push(s, a[0]);
      if t.Ok? { PushAllConcat(t.value, a[1..], b); }
    }
  }

  lemma PushOne(s: seq<El>, x: El)
    ensures PushAll(s, [x]) == Push(s, x)
  {
    assert [x][1..] == [];
  }

  lemma PushJoins(done: seq<El>, x: El, y: El)
    ensures Push(done + [x], y) ==
      if !Mergeable(x, y) then Ok(done + [x] + [y])
      else if x.count + y.count > U32_MAX then Err
      else Ok(done + [x.WithCount(x.count + y.count)])
  {
    var s := done + [x];
    assert s[|s| - 1] == x && s[..|s| - 1] == done;
  }

  lemma {:induction false} PushAllMerges(done: seq<El>, x: El, states: seq<El>)
    ensures PushAll(done + [x], states) == Prefixed(done, MergeInto(x, states))
    decreases states
  {
    if states != [] {
      PushJoins(done, x, states[0]);
      if !Mergeable(x, states[0]) {
        PushAllMerges(done + [x], states[0], states[1..]);
        var rest := MergeInto(states[0], states[1..]);
        if rest.Ok? { Regroup(done, [x], rest.value); }
      } else if x.count + states[0].count <= U32_MAX {
        PushAllMerges(done, x.WithCount(x.count + states[0].count), states[1..]);
      }
    }
  }

  /** Appending states one by one is merging the list of all of them. */
  lemma PushAllIsMerge(states: seq<El>)
    ensures PushAll([], states) == Merged(states)
  {
    if states != [] {
      PushAllMerges([], states[0], states[1..]);
      assert [] + [states[0]] == [states[0]];
      var r := MergeInto(states[0], states[1..]);
      if r.Ok? { assert [] + r.value == r.value; }
    }
  }

  lemma LoadClocks(count: u32, value: word, v: word)
    ensures Load(count, value).IsRegular() && Clocks(v, Load(count, value)) == Repeat(value, count)
  {
  }

  lemma PushedLoad(s: seq<El>, count: u32, value: word)
    ensures Waveform(s + [Load(count, value)], 0) == Waveform(s, 0) + Repeat(value, count)
  {
    WaveformConcat(s, [Load(count, value)], 0);
    LoadClocks(count, value, Running(s, 0));
    ScanOne(After, Clocks, Running(s, 0), Load(count, value));
  }

  lemma ExtendedLoad(s: seq<El>, count: u32, value: word, more: u32)
    requires count + more <= U32_MAX
    ensures Waveform(s + [Load(count + more, value)], 0) == Waveform(s + [Load(count, value)], 0) + Repeat(value, more)
  {
    PushedLoad(s, count, value);
    PushedLoad(s, count + more, value);
    RepeatSum(value, count, more);
  }

  lemma ExtendedLast(s: seq<El>, more: u32)
    requires AllPlain(s) && s != [] && s[|s| - 1].count + more <= U32_MAX
    ensures var n := |s| - 1; var s' := s[..n] + [s[n].WithCount(s[n].count + more)];
      AllPlain(s') && Waveform(s', 0) == Waveform(s, 0) + Repeat(s[n].value, more)
  {
    var n := |s| - 1;
    assert s[n] == Load(s[n].count, s[n].value);
    ExtendedLoad(s[..n], s[n].count, s[n].value, more);
    assert s[..n] + [s[n]] == s;
  }

  lemma PushedWave(s: seq<El>, count: u32, value: word)
    requires AllPlain(s) && Push(s, Load(count, value)).Ok?
    ensures var s' := Push(s, Load(count, value)).value;
      AllPlain(s') && Waveform(s', 0) == Waveform(s, 0) + Repeat(value, count)
  {
    if s == [] || !Mergeable(s[|s| - 1], Load(count, value)) {
      PushedLoad(s, count, value);
    } else {
      ExtendedLast(s, count);
    }
  }

  /** States the builder emits: plain loads of at least one tick. */
  predicate Proper(states: seq<El>)
  {
    forall i :: 0 <= i < |states| ==> states[i] == Load(states[i].count, states[i].value) && states[i].count > 0
  }

  lemma ProperConcat(a: seq<El>, b: seq<El>)
    requires Proper(a) && Proper(b)
    ensures Proper(a + b)
  {
  }

  /** A receiver takes one state. */
  function HearOne(c: Config): (Rx, El) -> Rx
    requires ConfigOk(c)
  {
    (rx: Rx, x: El) => Receiver(WiringOf(c))(rx, x.value)
  }

  /** What a receiver at rx makes of a list of states. */
  ghost function Hear(c: Config, rx: Rx, states: seq<El>): Rx
    requires ConfigOk(c)
  {
    End(HearOne(c), rx, states)
  }

  lemma HearConcat(c: Config, rx: Rx, a: seq<El>, b: seq<El>)
    requires ConfigOk(c)
    ensures Hear(c, rx, a + b) == Hear(c, Hear(c, rx, a), b)
  {
    EndConcat(HearOne(c), rx, a, b);
  }

  lemma HeardOne(c: Config, s: seq<El>, count: u32, value: word)
    requires ConfigOk(c) && AllPlain(s) && count > 0 && Push(s, Load(count, value)).Ok?
    ensures var s' := Push(s, Load(count, value)).value;
      AllPlain(s') && Seen(c, Waveform(s', 0)) == HearOne(c)(Seen(c, Waveform(s, 0)), Load(count, value))
  {
    PushedWave(s, count, value);
    SeenMore(c, Waveform(s, 0), value, count);
  }

  /** What a receiver sees of the sequence is what it hears of the states. */
  lemma {:induction false} HeardAll(c: Config, s: seq<El>, states: seq<El>)
    requires ConfigOk(c) && AllPlain(s) && Proper(states) && PushAll(s, states).Ok?
    ensures var s' := PushAll(s, states).value;
      AllPlain(s') && Seen(c, Waveform(s', 0)) == Hear(c, Seen(c, Waveform(s, 0)), states)
    decreases states
  {
    if states != [] {
      var x := states[0];
      HeardOne(c, s, x.count, x.value);
      HeardAll(c, Push(s, x).value, states[1..]);
    }
  }

  // ----- bits of bytes

  /** `(b >> i) & 1`. */
  predicate BitOf(b: bv8, i: nat)
    requires i < 8
  {
    match i
    case 0 => b & 1 == 1
    case 1 => (b >> 1) & 1 == 1
    case 2 => (b >> 2) & 1 == 1
    case 3 => (b >> 3) & 1 == 1
    case 4 => (b >> 4) & 1 == 1
    case 5 => (b >> 5) & 1 == 1
    case 6 => (b >> 6) & 1 == 1
    case 7 => (b >> 7) & 1 == 1
  }

  /** The order in which a byte goes out. */
  function BitsOf(order: BitOrder, b: bv8): seq<bool>
  {
    seq(8, k requires 0 <= k < 8 => BitOf(b, if order.MsbFirst? then 7 - k else k))
  }

  function AllBits(order: BitOrder, data: seq<bv8>): seq<bool>
  {
    if data == [] then [] else BitsOf(order, data[0]) + AllBits(order, data[1..])
  }

  lemma {:induction false} AllBitsAppend(order: BitOrder, data: seq<bv8>, b: bv8)
    ensures AllBits(order, data + [b]) == AllBits(order, data) + BitsOf(order, b)
  {
    if data == [] {
      assert data + [b] == [b] && [b][1..] == [];
    } else {
      assert (data + [b])[1..] == data[1..] + [b];
      AllBitsAppend(order, data[1..], b);
      assert AllBits(order, data + [b]) == BitsOf(order, data[0]) + AllBits(order, data[1..] + [b]);
    }
  }

  lemma {:induction false} AllBitsConcat(order: BitOrder, a: seq<bv8>, b: seq<bv8>)
    ensures AllBits(order, a + b) == AllBits(order, a) + AllBits(order, b)
  {
    if a == [] {
      assert a + b == b;
    } else {
      assert (a + b)[0] == a[0] && (a + b)[1..] == a[1..] + b;
      AllBitsConcat(order, a[1..], b);
      Regroup(BitsOf(order, a[0]), AllBits(order, a[1..]), AllBits(order, b));
    }
  }

  lemma WeighBits(b: bv8, x0: bool, x1: bool, x2: bool, x3: bool, x4: bool, x5: bool, x6: bool, x7: bool)
    requires x0 == BitOf(b, 0) && x1 == BitOf(b, 1) && x2 == BitOf(b, 2) && x3 == BitOf(b, 3)
    requires x4 == BitOf(b, 4) && x5 == BitOf(b, 5) && x6 == BitOf(b, 6) && x7 == BitOf(b, 7)
    ensures Weigh(x0, x1, x2, x3, x4, x5, x6, x7) == b
  {
  }

  lemma ByteRoundTrip(order: BitOrder, b: bv8)
    ensures ByteOf(order, BitsOf(order, b)) == b
  {
    var s := BitsOf(order, b);
    if order.MsbFirst? {
      WeighBits(b, s[7], s[6], s[5], s[4], s[3], s[2], s[1], s[0]);
    } else {
      WeighBits(b, s[0], s[1], s[2], s[3], s[4], s[5], s[6], s[7]);
    }
  }

  /** The receiver's bytes are the bytes that went out. */
  lemma {:induction false} BytesRoundTrip(order: BitOrder, data: seq<bv8>)
    ensures BytesOf(order, AllBits(order, data)) == data
  {
    if data != [] {
      var bits := AllBits(order, data);
      assert bits[..8] == BitsOf(order, data[0]) && bits[8..] == AllBits(order, data[1..]);
      ByteRoundTrip(order, data[0]);
      BytesRoundTrip(order, data[1..]);
    }
  }

  lemma {:induction false} AllBitsLength(order: BitOrder, data: seq<bv8>)
    ensures |AllBits(order, data)| == 8 * |data|
  {
    if data != [] { AllBitsLength(order, data[1..]); }
  }

  function WordBytes(order: BitOrder, w: bv16): seq<bv8>
  {
    if order.MsbFirst? then [HighByte(w), LowByte(w)] else [LowByte(w), HighByte(w)]
  }

  /** Bit i of a 16-bit word. */
  predicate BitOf16(w: bv16, i: nat)
    requires i < 16
  {
    match i
    case 0 => w & 0x0001 != 0
    case 1 => w & 0x0002 != 0
    case 2 => w & 0x0004 != 0
    case 3 => w & 0x0008 != 0
    case 4 => w & 0x0010 != 0
    case 5 => w & 0x0020 != 0
    case 6 => w & 0x0040 != 0
    case 7 => w & 0x0080 != 0
    case 8 => w & 0x0100 != 0
    case 9 => w & 0x0200 != 0
    case 10 => w & 0x0400 != 0
    case 11 => w & 0x0800 != 0
    case 12 => w & 0x1000 != 0
    case 13 => w & 0x2000 != 0
    case 14 => w & 0x4000 != 0
    case 15 => w & 0x8000 != 0
  }

  function HighByte(w: bv16): bv8 { ((w >> 8) & 0xff) as bv8 }
  function LowByte(w: bv16): bv8 { (w & 0xff) as bv8 }

  lemma LowBit(w: bv16, i: nat)
    requires i < 8
    ensures BitOf16(w, i) == BitOf(LowByte(w), i)
  {
  }

  lemma HighBit(w: bv16, i: nat)
    requires i < 8
    ensures BitOf16(w, 8 + i) == BitOf(HighByte(w), i)
  {
  }

  lemma TwoBytes(order: BitOrder, a: bv8, b: bv8)
    ensures AllBits(order, [a, b]) == BitsOf(order, a) + BitsOf(order, b)
  {
    AllBitsOne(order, b);
    assert [a, b][1..] == [b];
  }

  lemma AllBitsOne(order: BitOrder, b: bv8)
    ensures AllBits(order, [b]) == BitsOf(order, b)
  {
    assert [b][1..] == [] && AllBits(order, []) == [];
    assert BitsOf(order, b) + [] == BitsOf(order, b);
  }

  /** A 16-bit word goes out as sixteen bits in the order of the single bytes: from bit 15 down, or from bit 0 up. */
  lemma WordBits(order: BitOrder, w: bv16, k: nat)
    requires k < 16
    ensures var bits := AllBits(order, WordBytes(order, w));
      |bits| == 16 && bits[k] == BitOf16(w, if order.MsbFirst? then 15 - k else k)
  {
    var first, second := WordBytes(order, w)[0], WordBytes(order, w)[1];
    assert WordBytes(order, w) == [first, second];
    TwoBytes(order, first, second);
    var i := if order.MsbFirst? then 15 - k else k;
    if i < 8 { LowBit(w, i); } else { HighBit(w, i - 8); }
  }

  /** The bytes in each frame a receiver has finished. */
  function Decoded(order: BitOrder, frames: seq<seq<bool>>): seq<seq<bv8>>
  {
    seq(|frames|, i requires 0 <= i < |frames| => BytesOf(order, frames[i]))
  }

  lemma DecodedAppend(order: BitOrder, frames: seq<seq<bool>>, frame: seq<bool>)
    ensures Decoded(order, frames + [frame]) == Decoded(order, frames) + [BytesOf(order, frame)]
  {
  }

  /** The bytes of one transaction, and the level of the auxiliary pin during it. */
  datatype Transaction = Transaction(aux: bool, data: seq<bv8>)

  /** A transaction is visible if chip select is active for at least one tick of it. */
  predicate IsVisible(c: Config, data: seq<bv8>) { data != [] || c.selectSetup > 0 || c.deselectHold > 0 }

  function Visible(c: Config, ts: seq<Transaction>): seq<seq<bv8>>
  {
    if ts == [] then []
    else Visible(c, ts[..|ts| - 1]) + if IsVisible(c, ts[|ts| - 1].data) then [ts[|ts| - 1].data] else []
  }
}
