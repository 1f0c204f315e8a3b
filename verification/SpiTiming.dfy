/** How long everything takes on the SPI pins, and what the pins show that the receiver does not look at. */
module SpiTiming {
  import opened Bits
  import opened Wrappers
  import opened Elements
  import opened PulseSequence
  import opened Scan
  import opened SpiReceiver
  import opened Spi
  import opened SpiBuilder

  // ----- clock ticks

  lemma {:induction false} LengthConcat(a: seq<El>, b: seq<El>)
    ensures Length(a + b) == Length(a) + Length(b)
  {
    if a == [] {
      assert a + b == b;
    } else {
      assert (a + b)[1..] == a[1..] + b;
      LengthConcat(a[1..], b);
    }
  }

  lemma LoadIsRegular(count: u32, value: word)
    ensures Load(count, value).IsRegular() && Load(count, value).Updated(0) == value
  {
  }

  lemma HeldWave(c: Config, sclk: bool, mosi: bool, active: bool, aux: bool, ticks: u32, v: word)
    requires ConfigOk(c)
    ensures Length(Held(c, sclk, mosi, active, aux, ticks)) == ticks
    ensures Waveform(Held(c, sclk, mosi, active, aux, ticks), v)
      == Repeat(ComposePins(c, sclk, mosi, active, aux), ticks)
  {
    if ticks > 0 {
      var e := Load(ticks, ComposePins(c, sclk, mosi, active, aux));
      LoadIsRegular(e.count, e.value);
      assert Held(c, sclk, mosi, active, aux, ticks) == [e] && [e][1..] == [];
      ScanOne(After, Clocks, v, e);
    }
  }

  /** The clock level of the first half of a bit, mode by mode. */
  predicate FirstHalfHigh(mode: nat) { mode == 1 || mode == 2 }

  /** The pins during a bit: half a period at each clock level, with the data line and chip select held. */
  lemma BitWave(c: Config, half: u32, aux: bool, bit: bool, v: word)
    requires ConfigOk(c)
    ensures Length(BitStates(c, half, aux, bit)) == 2 * half
    ensures Waveform(BitStates(c, half, aux, bit), v)
      == Repeat(ComposePins(c, FirstHalfHigh(c.mode), bit, true, aux), half)
         + Repeat(ComposePins(c, !FirstHalfHigh(c.mode), bit, true, aux), half)
  {
    var first := FirstLevelOfClock(c.mode);
    assert first == FirstHalfHigh(c.mode);
    var a, b := Held(c, first, bit, true, aux, half), Held(c, !first, bit, true, aux, half);
    LengthConcat(a, b);
    WaveformConcat(a, b, v);
    HeldWave(c, first, bit, true, aux, half, v);
    HeldWave(c, !first, bit, true, aux, half, Running(a, v));
  }

  lemma {:induction false} BitsTicks(c: Config, half: u32, aux: bool, bits: seq<bool>)
    requires ConfigOk(c)
    ensures Length(BitsStates(c, half, aux, bits)) == 2 * half * |bits|
  {
    if bits != [] {
      var n := |bits| - 1;
      BitsTicks(c, half, aux, bits[..n]);
      LengthConcat(BitsStates(c, half, aux, bits[..n]), BitStates(c, half, aux, bits[n]));
      BitWave(c, half, aux, bits[n], 0);
      OneMore(2 * half, n);
    }
  }

  lemma OneMore(a: nat, n: nat)
    ensures a * n + a == a * (n + 1)
  {
  }

  /** A transaction takes setup, sixteen half periods per byte, hold, and at least one idle tick. */
  lemma TransactionTicks(c: Config, half: u32, mosi: bool, t: Transaction)
    requires ConfigOk(c)
    ensures Length(TransactionStates(c, half, false, mosi, t))
      == c.selectSetup + 2 * half * (8 * |t.data|) + c.deselectHold + if c.postIdle > 0 then c.postIdle else 1
  {
    var bits := AllBits(c.order, t.data);
    var last := LastBit(bits, mosi);
    AllBitsLength(c.order, t.data);
    BitsTicks(c, half, t.aux, bits);
    HeldWave(c, Cpol(c.mode), mosi, true, t.aux, c.selectSetup, 0);
    HeldWave(c, Cpol(c.mode), last, true, t.aux, c.deselectHold, 0);
    HeldWave(c, Cpol(c.mode), last, false, t.aux, if c.postIdle > 0 then c.postIdle else 1, 0);
    LengthConcat(SelectStates(c, t.aux, mosi), BitsStates(c, half, t.aux, bits));
    LengthConcat(FrameStates(c, half, false, mosi, t), DeselectStates(c, t.aux, last));
    LengthConcat(Held(c, Cpol(c.mode), last, true, t.aux, c.deselectHold),
                 Held(c, Cpol(c.mode), last, false, t.aux, if c.postIdle > 0 then c.postIdle else 1));
  }

  ghost function TotalTicks(c: Config, half: u32, ts: seq<Transaction>): nat
  {
    if ts == [] then 1
    else TotalTicks(c, half, ts[..|ts| - 1]) + c.selectSetup + 2 * half * (8 * |ts[|ts| - 1].data|) + c.deselectHold
         + if c.postIdle > 0 then c.postIdle else 1
  }

  lemma {:induction false} AllTicks(c: Config, half: u32, ts: seq<Transaction>)
    requires ConfigOk(c)
    ensures Length(AllStates(c, half, ts)) == TotalTicks(c, half, ts)
  {
    if ts == [] {
      HeldWave(c, Cpol(c.mode), false, false, c.auxDefault, 1, 0);
    } else {
      var before, t := ts[..|ts| - 1], ts[|ts| - 1];
      AllTicks(c, half, before);
      LengthConcat(AllStates(c, half, before), TransactionStates(c, half, false, MosiAfter(c, before), t));
      TransactionTicks(c, half, MosiAfter(c, before), t);
    }
  }

  /** The sequence that is sent lasts exactly that long. */
  lemma SentTicks(c: Config, half: u32, ts: seq<Transaction>, sent: seq<El>)
    requires ConfigOk(c) && Merged(AllStates(c, half, ts)) == Ok(sent)
    ensures Length(sent) == TotalTicks(c, half, ts)
  {
    AllTicks(c, half, ts);
    MergeShape(AllStates(c, half, ts));
  }

  // ----- all 32 pins

  lemma PlacedAt(a: bool, p: word, b: bool, q: word, c: bool, r: word, d: bool, s: word, j: word)
    requires p < 32 && q < 32 && r < 32 && s < 32 && j < 32
    ensures High(Place(a, p, b, q, c, r, d, s), j) <==> (j == p && a) || (j == q && b) || (j == r && c) || (j == s && d)
  {
    HighOr4(Level(a, p), Level(b, q), Level(c, r), Level(d, s), j);
    LevelAt(a, p, j);
    LevelAt(b, q, j);
    LevelAt(c, r, j);
    LevelAt(d, s, j);
  }

  /** Four pins show their levels, and the other 28 are low. */
  lemma PinsAre(c: Config, sclk: bool, mosi: bool, selected: bool, aux: bool, j: word)
    requires ConfigOk(c) && j < 32
    ensures High(ComposePins(c, sclk, mosi, selected, aux), j) <==>
      || (j == c.bitSclk && sclk) || (j == c.bitMosi && mosi) || (j == c.bitCs && CsLevel(c, selected))
      || (j == c.bitAux && aux)
  {
    PlacedAt(sclk, c.bitSclk, mosi, c.bitMosi, CsLevel(c, selected), c.bitCs, aux, c.bitAux, j);
  }

  lemma LevelAt(a: bool, p: word, j: word)
    requires p < 32 && j < 32
    ensures High(Level(a, p), j) <==> j == p && a
  {
    if j == p { LevelItself(a, p); } else { LevelElsewhere(a, p, j); }
  }

  /** Pins that are not wired stay low, and the auxiliary pin shows its level. */
  ghost predicate Quiet(c: Config, aux: bool, value: word)
    requires ConfigOk(c)
  {
    && (High(value, c.bitAux) <==> aux)
    && forall j: word :: j < 32 && j != c.bitSclk && j != c.bitMosi && j != c.bitCs && j != c.bitAux ==> !High(value, j)
  }

  ghost predicate AllQuiet(c: Config, aux: bool, states: seq<El>)
    requires ConfigOk(c)
  {
    forall e :: e in states ==> Quiet(c, aux, e.value)
  }

  lemma HeldQuiet(c: Config, sclk: bool, mosi: bool, active: bool, aux: bool, ticks: u32)
    requires ConfigOk(c)
    ensures AllQuiet(c, aux, Held(c, sclk, mosi, active, aux, ticks))
  {
    var pins := ComposePins(c, sclk, mosi, active, aux);
    PinsAre(c, sclk, mosi, active, aux, c.bitAux);
    forall j: word | j < 32 && j != c.bitSclk && j != c.bitMosi && j != c.bitCs && j != c.bitAux
      ensures !High(pins, j)
    {
      PinsAre(c, sclk, mosi, active, aux, j);
    }
  }

  lemma QuietConcat(c: Config, aux: bool, a: seq<El>, b: seq<El>)
    requires ConfigOk(c) && AllQuiet(c, aux, a) && AllQuiet(c, aux, b)
    ensures AllQuiet(c, aux, a + b)
  {
  }

  lemma {:induction false} BitsQuiet(c: Config, half: u32, aux: bool, bits: seq<bool>)
    requires ConfigOk(c)
    ensures AllQuiet(c, aux, BitsStates(c, half, aux, bits))
  {
    if bits != [] {
      var n := |bits| - 1;
      var first := FirstLevelOfClock(c.mode);
      BitsQuiet(c, half, aux, bits[..n]);
      HeldQuiet(c, first, bits[n], true, aux, half);
      HeldQuiet(c, !first, bits[n], true, aux, half);
      QuietConcat(c, aux, Held(c, first, bits[n], true, aux, half), Held(c, !first, bits[n], true, aux, half));
      QuietConcat(c, aux, BitsStates(c, half, aux, bits[..n]), BitStates(c, half, aux, bits[n]));
    }
  }

  /** Through a whole transaction the auxiliary pin shows what was asked for, and no other pin is touched. */
  lemma TransactionQuiet(c: Config, half: u32, mosi: bool, t: Transaction)
    requires ConfigOk(c)
    ensures AllQuiet(c, t.aux, TransactionStates(c, half, false, mosi, t))
  {
    var bits := AllBits(c.order, t.data);
    var last := LastBit(bits, mosi);
    var ticks: u32 := if c.postIdle > 0 then c.postIdle else 1;
    BitsQuiet(c, half, t.aux, bits);
    HeldQuiet(c, Cpol(c.mode), mosi, true, t.aux, c.selectSetup);
    HeldQuiet(c, Cpol(c.mode), last, true, t.aux, c.deselectHold);
    HeldQuiet(c, Cpol(c.mode), last, false, t.aux, ticks);
    QuietConcat(c, t.aux, SelectStates(c, t.aux, mosi), BitsStates(c, half, t.aux, bits));
    QuietConcat(c, t.aux, Held(c, Cpol(c.mode), last, true, t.aux, c.deselectHold),
                Held(c, Cpol(c.mode), last, false, t.aux, ticks));
    QuietConcat(c, t.aux, FrameStates(c, half, false, mosi, t), DeselectStates(c, t.aux, last));
  }
}
