/**
  The SPI sequence builder. Every method says exactly which states it emits and that it fails
  exactly if a run-length count overflows, and what a receiver on the other end has seen after it,
  so the contracts cover any order of calls.
*/
module SpiBuilder {
  import opened Bits
  import opened Wrappers
  import opened Elements
  import opened PulseSequence
  import opened Scan
  import opened SpiReceiver
  import opened Spi

  /** The receiver went from rx to rx' by clocking in `more`, with no frame finished. */
  ghost predicate Received(rx: Rx, rx': Rx, more: seq<bool>)
  {
    && Open(rx') == Open(rx) + more
    && rx'.frames == rx.frames && rx'.clean == rx.clean
    && (rx'.active <==> rx.active || more != [])
  }

  /** The receiver saw chip select go inactive; a frame ended there if it had been active. */
  ghost predicate Closed(rx: Rx, rx': Rx, ended: bool)
  {
    && !rx'.active && rx'.clean == rx.clean
    && rx'.frames == rx.frames + if ended then [Open(rx)] else []
  }

  predicate Cpol(mode: nat) { mode == 2 || mode == 3 }
  predicate Cpha(mode: nat) { mode == 1 || mode == 3 }

  /** Between calls the clock rests at its idle level, unless the mode samples on the leading edge. */
  ghost predicate Rests(mode: nat, rx: Rx) { Cpha(mode) ==> rx.sclk == Cpol(mode) }

  /** The two half periods of one bit clock in exactly that bit, in all four modes. */
  lemma TwoHalves(mode: nat, rx: Rx, bit: bool)
    requires mode <= 3 && Rests(mode, rx)
    ensures var first := if Cpha(mode) then !Cpol(mode) else Cpol(mode);
      var rx' := Tick(mode, Tick(mode, rx, first, bit, true), !first, bit, true);
      Received(rx, rx', [bit]) && Rests(mode, rx')
  {
  }

  lemma ReceivedTrans(rx: Rx, mid: Rx, rx': Rx, some: seq<bool>, more: seq<bool>)
    requires Received(rx, mid, some) && Received(mid, rx', more)
    ensures Received(rx, rx', some + more)
  {
    assert Open(rx) + (some + more) == Open(rx) + some + more;
  }

  /** An idle clock level never samples. */
  lemma IdleTick(mode: nat, rx: Rx, level: bool, active: bool)
    requires mode <= 3 && Rests(mode, rx)
    ensures var rx' := Tick(mode, rx, Cpol(mode), level, active);
      Rests(mode, rx') && rx'.clean == rx.clean && rx'.active == active
      && if active then Open(rx') == Open(rx) && rx'.frames == rx.frames else Closed(rx, rx', rx.active)
  {
  }

  // ----- the states each call emits

  /** The given levels for `ticks`. */
  function Held(c: Config, sclk: bool, mosi: bool, active: bool, aux: bool, ticks: u32): (states: seq<El>)
    requires ConfigOk(c)
    ensures Proper(states)
  {
    if ticks == 0 then [] else [Load(ticks, ComposePins(c, sclk, mosi, active, aux))]
  }

  function FirstLevelOfClock(mode: nat): bool { if Cpha(mode) then !Cpol(mode) else Cpol(mode) }

  function BitStates(c: Config, half: u32, aux: bool, bit: bool): (states: seq<El>)
    requires ConfigOk(c)
    ensures Proper(states)
  {
    var first := FirstLevelOfClock(c.mode);
    Held(c, first, bit, true, aux, half) + Held(c, !first, bit, true, aux, half)
  }

  ghost function BitsStates(c: Config, half: u32, aux: bool, bits: seq<bool>): (states: seq<El>)
    requires ConfigOk(c)
    ensures Proper(states)
  {
    if bits == [] then []
    else
      ProperConcat(BitsStates(c, half, aux, bits[..|bits| - 1]), BitStates(c, half, aux, bits[|bits| - 1]));
      BitsStates(c, half, aux, bits[..|bits| - 1]) + BitStates(c, half, aux, bits[|bits| - 1])
  }

  lemma BitsStatesAppend(c: Config, half: u32, aux: bool, bits: seq<bool>, bit: bool)
    requires ConfigOk(c)
    ensures BitsStates(c, half, aux, bits + [bit]) == BitsStates(c, half, aux, bits) + BitStates(c, half, aux, bit)
  {
    assert (bits + [bit])[..|bits|] == bits;
  }

  lemma {:induction false} BitsStatesConcat(c: Config, half: u32, aux: bool, a: seq<bool>, b: seq<bool>)
    requires ConfigOk(c)
    ensures BitsStates(c, half, aux, a + b) == BitsStates(c, half, aux, a) + BitsStates(c, half, aux, b)
    decreases b
  {
    if b == [] {
      assert a + b == a;
    } else {
      var n := |b| - 1;
      assert (a + b)[..|a| + n] == a + b[..n];
      BitsStatesConcat(c, half, aux, a, b[..n]);
      Regroup(BitsStates(c, half, aux, a), BitsStates(c, half, aux, b[..n]), BitStates(c, half, aux, b[n]));
    }
  }

  function SelectStates(c: Config, aux: bool, mosi: bool): (states: seq<El>)
    requires ConfigOk(c)
    ensures Proper(states)
  {
    Held(c, Cpol(c.mode), mosi, true, aux, c.selectSetup)
  }

  function DeselectStates(c: Config, aux: bool, mosi: bool): (states: seq<El>)
    requires ConfigOk(c)
    ensures Proper(states)
  {
    Held(c, Cpol(c.mode), mosi, true, aux, c.deselectHold)
    + Held(c, Cpol(c.mode), mosi, false, aux, if c.postIdle > 0 then c.postIdle else 1)
  }

  function LastBit(bits: seq<bool>, mosi: bool): bool { if bits == [] then mosi else bits[|bits| - 1] }

  /** Chip select and the bits of a transaction, with the data line at `mosi` before it. */
  ghost function FrameStates(c: Config, half: u32, selected: bool, mosi: bool, t: Transaction): (states: seq<El>)
    requires ConfigOk(c)
    ensures Proper(states)
  {
    var a := if selected then [] else SelectStates(c, t.aux, mosi);
    var b := BitsStates(c, half, t.aux, AllBits(c.order, t.data));
    ProperConcat(a, b);
    a + b
  }

  ghost function TransactionStates(c: Config, half: u32, selected: bool, mosi: bool, t: Transaction): (states: seq<El>)
    requires ConfigOk(c)
    ensures Proper(states)
  {
    var a := FrameStates(c, half, selected, mosi, t);
    var d := DeselectStates(c, t.aux, LastBit(AllBits(c.order, t.data), mosi));
    ProperConcat(a, d);
    a + d
  }

  /** The data line after some transactions. */
  ghost function MosiAfter(c: Config, ts: seq<Transaction>): bool
  {
    if ts == [] then false
    else LastBit(AllBits(c.order, ts[|ts| - 1].data), MosiAfter(c, ts[..|ts| - 1]))
  }

  /** Everything a fresh builder emits for a list of transactions, beginning with one idle tick. */
  ghost function AllStates(c: Config, half: u32, ts: seq<Transaction>): (states: seq<El>)
    requires ConfigOk(c)
    ensures Proper(states)
  {
    if ts == [] then Held(c, Cpol(c.mode), false, false, c.auxDefault, 1)
    else
      var before := ts[..|ts| - 1];
      ProperConcat(AllStates(c, half, before), TransactionStates(c, half, false, MosiAfter(c, before), ts[|ts| - 1]));
      AllStates(c, half, before) + TransactionStates(c, half, false, MosiAfter(c, before), ts[|ts| - 1])
  }

  // ----- what a receiver hears of them

  lemma HearSingle(c: Config, rx: Rx, x: El)
    requires ConfigOk(c)
    ensures Hear(c, rx, [x]) == Receiver(WiringOf(c))(rx, x.value)
  {
    EndOne(HearOne(c), rx, x);
  }

  lemma HearHeld(c: Config, rx: Rx, sclk: bool, mosi: bool, active: bool, aux: bool, ticks: u32)
    requires ConfigOk(c)
    ensures Hear(c, rx, Held(c, sclk, mosi, active, aux, ticks)) ==
      if ticks == 0 then rx else Tick(c.mode, rx, sclk, mosi, active)
  {
    if ticks > 0 {
      var pins := ComposePins(c, sclk, mosi, active, aux);
      HearSingle(c, rx, Load(ticks, pins));
      PinsDecode(c, sclk, mosi, active, aux);
      ReceivePins(c, rx, sclk, mosi, active, pins);
    }
  }

  /** One bit is sampled exactly once, in all four modes. */
  lemma HearBit(c: Config, half: u32, aux: bool, rx: Rx, bit: bool)
    requires ConfigOk(c) && half > 0 && Rests(c.mode, rx)
    ensures var rx' := Hear(c, rx, BitStates(c, half, aux, bit)); Received(rx, rx', [bit]) && Rests(c.mode, rx')
  {
    var first := FirstLevelOfClock(c.mode);
    HearConcat(c, rx, Held(c, first, bit, true, aux, half), Held(c, !first, bit, true, aux, half));
    HearHeld(c, rx, first, bit, true, aux, half);
    HearHeld(c, Tick(c.mode, rx, first, bit, true), !first, bit, true, aux, half);
    TwoHalves(c.mode, rx, bit);
  }

  /** A receiver at rx clocks in exactly these bits. */
  ghost predicate HearsBits(c: Config, half: u32, aux: bool, rx: Rx, bits: seq<bool>)
    requires ConfigOk(c)
  {
    var rx' := Hear(c, rx, BitsStates(c, half, aux, bits));
    Received(rx, rx', bits) && Rests(c.mode, rx')
  }

  lemma HearNoBits(c: Config, half: u32, aux: bool, rx: Rx)
    requires ConfigOk(c) && Rests(c.mode, rx)
    ensures HearsBits(c, half, aux, rx, [])
  {
    assert Open(rx) + [] == Open(rx);
  }

  lemma {:induction false} HearNextBit(c: Config, half: u32, aux: bool, rx: Rx, bits: seq<bool>)
    requires ConfigOk(c) && half > 0 && bits != [] && HearsBits(c, half, aux, rx, bits[..|bits| - 1])
    ensures HearsBits(c, half, aux, rx, bits)
  {
    var some, bit := bits[..|bits| - 1], bits[|bits| - 1];
    assert bits == some + [bit];
    var mid := Hear(c, rx, BitsStates(c, half, aux, some));
    BitsStatesAppend(c, half, aux, some, bit);
    HearConcat(c, rx, BitsStates(c, half, aux, some), BitStates(c, half, aux, bit));
    HearBit(c, half, aux, mid, bit);
    ReceivedTrans(rx, mid, Hear(c, mid, BitStates(c, half, aux, bit)), some, [bit]);
  }

  lemma {:induction false} HearBits(c: Config, half: u32, aux: bool, rx: Rx, bits: seq<bool>)
    requires ConfigOk(c) && half > 0 && Rests(c.mode, rx)
    ensures HearsBits(c, half, aux, rx, bits)
    decreases bits
  {
    if bits == [] {
      HearNoBits(c, half, aux, rx);
    } else {
      HearBits(c, half, aux, rx, bits[..|bits| - 1]);
      HearNextBit(c, half, aux, rx, bits);
    }
  }

  /** Chip select became active, if for any tick at all, and nothing was sampled. */
  ghost predicate Opened(rx: Rx, rx': Rx, ticks: u32)
  {
    && Open(rx') == Open(rx) && rx'.frames == rx.frames && rx'.clean == rx.clean
    && (rx'.active <==> rx.active || ticks > 0)
  }

  lemma HearSelect(c: Config, aux: bool, mosi: bool, rx: Rx)
    requires ConfigOk(c) && Rests(c.mode, rx)
    ensures var rx' := Hear(c, rx, SelectStates(c, aux, mosi)); Opened(rx, rx', c.selectSetup) && Rests(c.mode, rx')
  {
    HearHold(c, aux, mosi, rx, c.selectSetup);
  }

  lemma HearHold(c: Config, aux: bool, mosi: bool, rx: Rx, ticks: u32)
    requires ConfigOk(c) && Rests(c.mode, rx)
    ensures var rx' := Hear(c, rx, Held(c, Cpol(c.mode), mosi, true, aux, ticks));
      Opened(rx, rx', ticks) && Rests(c.mode, rx')
  {
    HearHeld(c, rx, Cpol(c.mode), mosi, true, aux, ticks);
    IdleTick(c.mode, rx, mosi, true);
  }

  lemma HearIdle(c: Config, aux: bool, mosi: bool, rx: Rx, ticks: u32)
    requires ConfigOk(c) && Rests(c.mode, rx) && ticks > 0
    ensures var rx' := Hear(c, rx, Held(c, Cpol(c.mode), mosi, false, aux, ticks));
      Closed(rx, rx', rx.active) && Rests(c.mode, rx')
  {
    HearHeld(c, rx, Cpol(c.mode), mosi, false, aux, ticks);
    IdleTick(c.mode, rx, mosi, false);
  }

  lemma OpenedThenClosed(rx: Rx, mid: Rx, rx': Rx, ticks: u32)
    requires Opened(rx, mid, ticks) && Closed(mid, rx', mid.active)
    ensures Closed(rx, rx', rx.active || ticks > 0)
  {
  }

  /** The frame ends, and at least one idle tick follows. */
  lemma HearDeselect(c: Config, aux: bool, mosi: bool, rx: Rx)
    requires ConfigOk(c) && Rests(c.mode, rx)
    ensures var rx' := Hear(c, rx, DeselectStates(c, aux, mosi));
      Closed(rx, rx', rx.active || c.deselectHold > 0) && Rests(c.mode, rx')
  {
    var hold := Held(c, Cpol(c.mode), mosi, true, aux, c.deselectHold);
    var ticks: u32 := if c.postIdle > 0 then c.postIdle else 1;
    var idle := Held(c, Cpol(c.mode), mosi, false, aux, ticks);
    var mid := Hear(c, rx, hold);
    HearConcat(c, rx, hold, idle);
    HearHold(c, aux, mosi, rx, c.deselectHold);
    HearIdle(c, aux, mosi, mid, ticks);
    OpenedThenClosed(rx, mid, Hear(c, mid, idle), c.deselectHold);
  }

  /** One more frame with exactly these bits, if chip select was active at all. */
  ghost predicate Framed(c: Config, rx: Rx, rx': Rx, data: seq<bv8>)
  {
    && !rx'.active && rx'.clean == rx.clean && Rests(c.mode, rx')
    && rx'.frames == rx.frames + if IsVisible(c, data) then [AllBits(c.order, data)] else []
  }

  lemma HearFrame(c: Config, half: u32, mosi: bool, t: Transaction, rx: Rx)
    requires ConfigOk(c) && half > 0 && Rests(c.mode, rx) && !rx.active
    ensures var rx' := Hear(c, rx, FrameStates(c, half, false, mosi, t)); var bits := AllBits(c.order, t.data);
      && Rests(c.mode, rx') && Open(rx') == bits && rx'.frames == rx.frames && rx'.clean == rx.clean
      && (rx'.active <==> c.selectSetup > 0 || bits != [])
  {
    HearSelectAndBits(c, half, mosi, t.aux, AllBits(c.order, t.data), rx);
  }

  lemma HearSelectAndBits(c: Config, half: u32, mosi: bool, aux: bool, bits: seq<bool>, rx: Rx)
    requires ConfigOk(c) && half > 0 && Rests(c.mode, rx) && !rx.active
    ensures var rx' := Hear(c, rx, SelectStates(c, aux, mosi) + BitsStates(c, half, aux, bits));
      && Rests(c.mode, rx') && Open(rx') == bits && rx'.frames == rx.frames && rx'.clean == rx.clean
      && (rx'.active <==> c.selectSetup > 0 || bits != [])
  {
    var a, b := SelectStates(c, aux, mosi), BitsStates(c, half, aux, bits);
    HearConcat(c, rx, a, b);
    HearSelect(c, aux, mosi, rx);
    HearBits(c, half, aux, Hear(c, rx, a), bits);
    assert [] + bits == bits;
  }

  lemma HearTransaction(c: Config, half: u32, mosi: bool, t: Transaction, rx: Rx)
    requires ConfigOk(c) && half > 0 && Rests(c.mode, rx) && !rx.active
    ensures Framed(c, rx, Hear(c, rx, TransactionStates(c, half, false, mosi, t)), t.data)
  {
    var a, last := FrameStates(c, half, false, mosi, t), LastBit(AllBits(c.order, t.data), mosi);
    HearConcat(c, rx, a, DeselectStates(c, t.aux, last));
    HearFrame(c, half, mosi, t, rx);
    HearDeselect(c, t.aux, last, Hear(c, rx, a));
    AllBitsLength(c.order, t.data);
  }

  // ----- the builder

  /** Emitting `states` onto `before` fails exactly if a run overflows, and gives `after` otherwise. */
  ghost predicate Emitted(before: seq<El>, states: seq<El>, ok: bool, after: seq<El>)
  {
    var r := PushAll(before, states);
    (ok <==> r.Ok?) && (ok ==> after == r.value)
  }

  lemma EmittedNothing(s: seq<El>)
    ensures Emitted(s, [], true, s)
  {
  }

  lemma EmittedBoth(s: seq<El>, a: seq<El>, mid: seq<El>, b: seq<El>, ok: bool, after: seq<El>)
    requires Emitted(s, a, true, mid) && Emitted(mid, b, ok, after)
    ensures Emitted(s, a + b, ok, after)
  {
    PushAllConcat(s, a, b);
  }

  /** A failure stays a failure, whatever was still to come. */
  lemma EmittedFailure(s: seq<El>, a: seq<El>, b: seq<El>, mid: seq<El>, after: seq<El>)
    requires Emitted(s, a, false, mid)
    ensures Emitted(s, a + b, false, after)
  {
    PushAllConcat(s, a, b);
  }

  lemma FrameFailed(c: Config, half: u32, selected: bool, mosi: bool, t: Transaction, start: seq<El>, after: seq<El>)
    requires ConfigOk(c) && Emitted(start, if selected then [] else SelectStates(c, t.aux, mosi), false, after)
    ensures Emitted(start, FrameStates(c, half, selected, mosi, t), false, after)
  {
    var a := if selected then [] else SelectStates(c, t.aux, mosi);
    EmittedFailure(start, a, BitsStates(c, half, t.aux, AllBits(c.order, t.data)), after, after);
  }

  lemma FrameEmitted(c: Config, half: u32, selected: bool, mosi: bool, t: Transaction, start: seq<El>, mid: seq<El>,
                     ok: bool, after: seq<El>)
    requires ConfigOk(c) && Emitted(start, if selected then [] else SelectStates(c, t.aux, mosi), true, mid)
    requires Emitted(mid, BitsStates(c, half, t.aux, AllBits(c.order, t.data)), ok, after)
    ensures Emitted(start, FrameStates(c, half, selected, mosi, t), ok, after)
  {
    var a := if selected then [] else SelectStates(c, t.aux, mosi);
    EmittedBoth(start, a, mid, BitsStates(c, half, t.aux, AllBits(c.order, t.data)), ok, after);
  }

  /** What a receiver sees of the emitted states is what it hears of them. */
  lemma EmittedIsHeard(c: Config, s: seq<El>, states: seq<El>, after: seq<El>)
    requires ConfigOk(c) && AllPlain(s) && Proper(states) && Emitted(s, states, true, after)
    ensures AllPlain(after) && Seen(c, Waveform(after, 0)) == Hear(c, Seen(c, Waveform(s, 0)), states)
  {
    HeardAll(c, s, states);
  }

  lemma DeselectSeen(c: Config, aux: bool, mosi: bool, s: seq<El>, after: seq<El>)
    requires ConfigOk(c) && AllPlain(s) && Emitted(s, DeselectStates(c, aux, mosi), true, after)
    requires Rests(c.mode, Seen(c, Waveform(s, 0)))
    ensures var rx, rx' := Seen(c, Waveform(s, 0)), Seen(c, Waveform(after, 0));
      Rests(c.mode, rx') && Closed(rx, rx', rx.active || c.deselectHold > 0)
  {
    EmittedIsHeard(c, s, DeselectStates(c, aux, mosi), after);
    HearDeselect(c, aux, mosi, Seen(c, Waveform(s, 0)));
  }

  lemma BitSeen(c: Config, half: u32, aux: bool, bit: bool, s: seq<El>, after: seq<El>)
    requires ConfigOk(c) && half > 0 && AllPlain(s) && Emitted(s, BitStates(c, half, aux, bit), true, after)
    requires Rests(c.mode, Seen(c, Waveform(s, 0)))
    ensures var rx, rx' := Seen(c, Waveform(s, 0)), Seen(c, Waveform(after, 0));
      Rests(c.mode, rx') && Received(rx, rx', [bit])
  {
    EmittedIsHeard(c, s, BitStates(c, half, aux, bit), after);
    HearBit(c, half, aux, Seen(c, Waveform(s, 0)), bit);
  }

  class SequenceBuilder {
    const cfg: Config
    const halfPeriod: u32
    var sequence: seq<El>
    var selected: bool
    var mosi: bool
    var aux: bool

    ghost predicate Valid()
      reads this
    {
      ConfigOk(cfg) && halfPeriod >= 1 && AllPlain(sequence)
    }

    /** What a receiver with the same wiring has seen. */
    ghost function View(): Rx
      requires ConfigOk(cfg)
      reads this
    {
      Seen(cfg, Waveform(sequence, 0))
    }

    constructor (cfg: Config)
      requires ConfigOk(cfg) && HalfPeriod(cfg).Ok?
      ensures this.cfg == cfg && halfPeriod == HalfPeriod(cfg).value && Valid()
      ensures !selected && !mosi && aux == cfg.auxDefault && sequence == AllStates(cfg, halfPeriod, [])
    {
      this.cfg := cfg;
      halfPeriod := HalfPeriod(cfg).value;
      sequence, selected, mosi, aux := [], false, false, cfg.auxDefault;
      new;
      var ok := EmitIdle(1);
      PushOne([], Load(1, ComposePins(cfg, Cpol(cfg.mode), false, false, cfg.auxDefault)));
    }

    /** Appends a run of one pin word, extending the last element when it can; fails exactly if that overflows. */
    method AppendRun(pins: word, ticks: u32) returns (ok: bool)
      requires AllPlain(sequence)
      modifies this`sequence
      ensures AllPlain(sequence)
      ensures var r := Push(old(sequence), Load(ticks, pins));
        (ok <==> r.Ok?) && sequence == if ok then r.value else old(sequence)
    {
      var n := |sequence|;
      if n > 0 && sequence[n - 1].IsRegular() && sequence[n - 1].control == 0 && sequence[n - 1].value == pins {
        var sum := CheckedCountSum(sequence[n - 1].count, ticks);
        if sum.Err? { return false; }
        PushedWave(sequence, ticks, pins);
        sequence := sequence[..n - 1] + [sequence[n - 1].WithCount(sum.value)];
      } else {
        PushedWave(sequence, ticks, pins);
        sequence := sequence + [Load(ticks, pins)];
      }
      ok := true;
    }

    /** `emit_state`: the given levels for `ticks`. */
    method EmitState(sclk: bool, level: bool, active: bool, auxLevel: bool, ticks: u32) returns (ok: bool)
      requires Valid()
      modifies this`sequence, this`mosi
      ensures Valid() && Emitted(old(sequence), Held(cfg, sclk, level, active, auxLevel, ticks), ok, sequence)
      ensures mosi == if ok && ticks > 0 then level else old(mosi)
    {
      if ticks == 0 { return true; }
      var pins := ComposePins(cfg, sclk, level, active, auxLevel);
      PushOne(sequence, Load(ticks, pins));
      ok := AppendRun(pins, ticks);
      if ok { mosi := level; }
    }

    method EmitIdle(ticks: u32) returns (ok: bool)
      requires Valid()
      modifies this`sequence, this`mosi
      ensures Valid() && Emitted(old(sequence), Held(cfg, Cpol(cfg.mode), old(mosi), false, aux, ticks), ok, sequence)
      ensures mosi == old(mosi)
    {
      ok := EmitState(Cpol(cfg.mode), mosi, false, aux, ticks);
    }

    method SetAux(value: bool)
      modifies this`aux
      ensures aux == value
    {
      aux := value;
    }

    /** `select`: nothing if already selected. */
    method Select() returns (ok: bool)
      requires Valid()
      modifies this`sequence, this`mosi, this`selected
      ensures Valid() && selected && mosi == old(mosi)
      ensures Emitted(old(sequence), if old(selected) then [] else SelectStates(cfg, aux, old(mosi)), ok, sequence)
      ensures ok && Rests(cfg.mode, old(View())) ==>
        Rests(cfg.mode, View()) && Opened(old(View()), View(), if old(selected) then 0 else cfg.selectSetup)
    {
      EmittedNothing(sequence);
      if selected { return true; }
      selected := true;
      ok := EmitState(Cpol(cfg.mode), mosi, true, aux, cfg.selectSetup);
      if ok && Rests(cfg.mode, old(View())) {
        EmittedIsHeard(cfg, old(sequence), SelectStates(cfg, aux, mosi), sequence);
        HearSelect(cfg, aux, mosi, old(View()));
      }
    }

    /** `deselect`: nothing if not selected. */
    method Deselect() returns (ok: bool)
      requires Valid()
      modifies this`sequence, this`mosi, this`selected
      ensures Valid() && mosi == old(mosi) && (ok ==> !selected)
      ensures Emitted(old(sequence), if old(selected) then DeselectStates(cfg, aux, old(mosi)) else [], ok, sequence)
      ensures ok && old(selected) && Rests(cfg.mode, old(View())) ==>
        Rests(cfg.mode, View()) && Closed(old(View()), View(), old(View()).active || cfg.deselectHold > 0)
    {
      EmittedNothing(sequence);
      if !selected { return true; }
      ghost var hold := Held(cfg, Cpol(cfg.mode), mosi, true, aux, cfg.deselectHold);
      var ticks := if cfg.postIdle > 0 then cfg.postIdle else 1;
      ghost var idle := Held(cfg, Cpol(cfg.mode), mosi, false, aux, ticks);
      ok := EmitState(Cpol(cfg.mode), mosi, true, aux, cfg.deselectHold);
      if !ok {
        EmittedFailure(old(sequence), hold, idle, sequence, sequence);
        return;
      }
      ghost var mid := sequence;
      selected := false;
      ok := EmitState(Cpol(cfg.mode), mosi, false, aux, ticks);
      EmittedBoth(old(sequence), hold, mid, idle, ok, sequence);
      if ok && Rests(cfg.mode, old(View())) { DeselectSeen(cfg, aux, mosi, old(sequence), sequence); }
    }

    /** `write_bit`: the two half periods of one bit; refused while chip select is inactive. */
    method WriteBit(bit: bool) returns (ok: bool)
      requires Valid()
      modifies this`sequence, this`mosi
      ensures Valid() && (!selected ==> !ok && sequence == old(sequence) && mosi == old(mosi))
      ensures selected ==> Emitted(old(sequence), BitStates(cfg, halfPeriod, aux, bit), ok, sequence)
      ensures ok ==> mosi == bit
      ensures ok && Rests(cfg.mode, old(View())) ==> Rests(cfg.mode, View()) && Received(old(View()), View(), [bit])
    {
      if !selected { return false; }
      var first := FirstLevelOfClock(cfg.mode);
      ghost var a := Held(cfg, first, bit, true, aux, halfPeriod);
      ghost var b := Held(cfg, !first, bit, true, aux, halfPeriod);
      ok := EmitState(first, bit, true, aux, halfPeriod);
      if !ok {
        EmittedFailure(old(sequence), a, b, sequence, sequence);
        return;
      }
      ghost var mid := sequence;
      ok := EmitState(!first, bit, true, aux, halfPeriod);
      EmittedBoth(old(sequence), a, mid, b, ok, sequence);
      if ok && Rests(cfg.mode, old(View())) { BitSeen(cfg, halfPeriod, aux, bit, old(sequence), sequence); }
    }

    /** The next bit of a longer write that began at `start`. */
    method WriteNext(bit: bool, ghost start: seq<El>, ghost bits: seq<bool>, ghost k: nat) returns (ok: bool)
      requires Valid() && k < |bits| && bit == bits[k] && Sent(this, start, bits[..k], true)
      modifies this`sequence, this`mosi
      ensures Valid() && (!selected ==> !ok && sequence == old(sequence) && mosi == old(mosi))
      ensures ok ==> Sent(this, start, bits[..k + 1], true) && mosi == bit
      ensures selected && !ok ==> Sent(this, start, bits, false)
    {
      ghost var mid := sequence;
      ok := WriteBit(bit);
      if selected { EmittedBit(cfg, halfPeriod, aux, start, bits, k, mid, ok, sequence); }
    }

    /** Bits in the given order. */
    method WriteBits(bits: seq<bool>) returns (ok: bool)
      requires Valid()
      modifies this`sequence, this`mosi
      ensures Valid() && (!selected ==> (ok <==> bits == []) && sequence == old(sequence) && mosi == old(mosi))
      ensures selected ==> Sent(this, old(sequence), bits, ok)
      ensures ok ==> mosi == LastBit(bits, old(mosi))
    {
      ghost var start := sequence;
      SentNothing(this);
      assert bits[..0] == [];
      for k := 0 to |bits|
        invariant Valid() && Sent(this, start, bits[..k], true)
        invariant if k == 0 then sequence == start && mosi == old(mosi) else selected && mosi == bits[k - 1]
      {
        ok := WriteNext(bits[k], start, bits, k);
        if !ok { return; }
      }
      assert bits[..|bits|] == bits;
      ok := true;
    }

    /** `write_byte`: its eight bits in the order the configuration asks for. */
    method WriteByte(b: bv8) returns (ok: bool)
      requires Valid()
      modifies this`sequence, this`mosi
      ensures Valid() && (!selected ==> !ok && sequence == old(sequence) && mosi == old(mosi))
      ensures selected ==> Sent(this, old(sequence), BitsOf(cfg.order, b), ok)
      ensures ok ==> mosi == LastBit(BitsOf(cfg.order, b), old(mosi))
      ensures ok && Rests(cfg.mode, old(View())) ==>
        Rests(cfg.mode, View()) && Received(old(View()), View(), BitsOf(cfg.order, b))
    {
      var bits := BitsOf(cfg.order, b);
      ok := WriteBits(bits);
      if ok && Rests(cfg.mode, old(View())) { SentIsReceived(this, old(sequence), bits); }
    }

    /** The next byte of a longer write. */
    method WriteNextByte(b: bv8, ghost start: seq<El>, ghost data: seq<bv8>, ghost k: nat) returns (ok: bool)
      requires Valid() && k < |data| && b == data[k] && Sent(this, start, AllBits(cfg.order, data[..k]), true)
      modifies this`sequence, this`mosi
      ensures Valid() && (!selected ==> !ok && sequence == old(sequence) && mosi == old(mosi))
      ensures ok ==> Sent(this, start, AllBits(cfg.order, data[..k + 1]), true)
      ensures ok ==> mosi == LastBit(BitsOf(cfg.order, b), old(mosi))
      ensures selected && !ok ==> Sent(this, start, AllBits(cfg.order, data), false)
    {
      ghost var mid := sequence;
      ok := WriteByte(b);
      if selected { EmittedByte(cfg, halfPeriod, aux, start, data, k, mid, ok, sequence); }
    }

    /** `write_bytes`. */
    method WriteBytes(data: seq<bv8>) returns (ok: bool)
      requires Valid()
      modifies this`sequence, this`mosi
      ensures Valid() && (!selected ==> (ok <==> data == []) && sequence == old(sequence) && mosi == old(mosi))
      ensures selected ==> Sent(this, old(sequence), AllBits(cfg.order, data), ok)
      ensures ok ==> mosi == LastBit(AllBits(cfg.order, data), old(mosi))
    {
      ghost var start, order := sequence, cfg.order;
      SentNothing(this);
      assert data[..0] == [];
      for k := 0 to |data|
        invariant Valid() && Sent(this, start, AllBits(order, data[..k]), true)
        invariant !selected ==> k == 0 && sequence == start && mosi == old(mosi)
        invariant mosi == LastBit(AllBits(order, data[..k]), old(mosi))
      {
        LastOfMore(order, data, k, old(mosi));
        ok := WriteNextByte(data[k], start, data, k);
        if !ok { return; }
      }
      assert data[..|data|] == data;
      ok := true;
    }

    /** `write_word16`: both bytes in the order the bit order asks for. */
    method WriteWord16(w: bv16) returns (ok: bool)
      requires Valid()
      modifies this`sequence, this`mosi
      ensures Valid() && (!selected ==> !ok && sequence == old(sequence))
      ensures selected ==> Sent(this, old(sequence), AllBits(cfg.order, WordBytes(cfg.order, w)), ok)
    {
      var pair := WordBytes(cfg.order, w);
      ok := WriteBytes(pair);
    }

    /** Selects and writes the bytes. */
    method WriteFrame(data: seq<bv8>) returns (ok: bool)
      requires Valid()
      modifies this`sequence, this`mosi, this`selected
      ensures Valid() && selected && (ok ==> mosi == LastBit(AllBits(cfg.order, data), old(mosi)))
      ensures var states := FrameStates(cfg, halfPeriod, old(selected), old(mosi), Transaction(aux, data));
        Emitted(old(sequence), states, ok, sequence)
    {
      ghost var start := sequence;
      ghost var was, t := selected, Transaction(aux, data);
      ok := Select();
      if !ok {
        FrameFailed(cfg, halfPeriod, was, mosi, t, start, sequence);
        return;
      }
      ghost var mid := sequence;
      ok := WriteBytes(data);
      FrameEmitted(cfg, halfPeriod, was, old(mosi), t, start, mid, ok, sequence);
    }

    /** `write_transaction`. */
    method WriteTransaction(data: seq<bv8>) returns (ok: bool)
      requires Valid()
      modifies this`sequence, this`mosi, this`selected
      ensures Valid() && (ok ==> !selected && mosi == LastBit(AllBits(cfg.order, data), old(mosi)))
      ensures var states := TransactionStates(cfg, halfPeriod, old(selected), old(mosi), Transaction(aux, data));
        Emitted(old(sequence), states, ok, sequence)
    {
      ghost var start := sequence;
      ghost var a := FrameStates(cfg, halfPeriod, selected, mosi, Transaction(aux, data));
      ghost var d := DeselectStates(cfg, aux, LastBit(AllBits(cfg.order, data), mosi));
      ok := WriteFrame(data);
      if !ok {
        EmittedFailure(start, a, d, sequence, sequence);
        return;
      }
      ghost var mid := sequence;
      ok := Deselect();
      EmittedBoth(start, a, mid, d, ok, sequence);
    }
  }

  /** The states of these bits were emitted. */
  ghost predicate Sent(b: SequenceBuilder, start: seq<El>, bits: seq<bool>, ok: bool)
    requires ConfigOk(b.cfg)
    reads b
  {
    Emitted(start, BitsStates(b.cfg, b.halfPeriod, b.aux, bits), ok, b.sequence)
  }

  lemma SentIsReceived(b: SequenceBuilder, start: seq<El>, bits: seq<bool>)
    requires b.Valid() && AllPlain(start) && Sent(b, start, bits, true)
    requires Rests(b.cfg.mode, Seen(b.cfg, Waveform(start, 0)))
    ensures Rests(b.cfg.mode, b.View()) && Received(Seen(b.cfg, Waveform(start, 0)), b.View(), bits)
  {
    var rx := Seen(b.cfg, Waveform(start, 0));
    EmittedIsHeard(b.cfg, start, BitsStates(b.cfg, b.halfPeriod, b.aux, bits), b.sequence);
    HearBits(b.cfg, b.halfPeriod, b.aux, rx, bits);
  }

  lemma SentNothing(b: SequenceBuilder)
    requires ConfigOk(b.cfg)
    ensures Sent(b, b.sequence, [], true)
  {
  }

  lemma EmittedBit(c: Config, half: u32, aux: bool, start: seq<El>, bits: seq<bool>, k: nat, mid: seq<El>, ok: bool,
                   after: seq<El>)
    requires ConfigOk(c) && k < |bits| && Emitted(start, BitsStates(c, half, aux, bits[..k]), true, mid)
    requires Emitted(mid, BitStates(c, half, aux, bits[k]), ok, after)
    ensures Emitted(start, BitsStates(c, half, aux, bits[..k + 1]), ok, after)
    ensures !ok ==> Emitted(start, BitsStates(c, half, aux, bits), ok, after)
  {
    BitsStatesPrefix(c, half, aux, bits, k);
    EmittedBoth(start, BitsStates(c, half, aux, bits[..k]), mid, BitStates(c, half, aux, bits[k]), ok, after);
    if !ok { EmittedPrefix(c, half, aux, start, bits, k + 1, after); }
  }

  lemma BitsStatesPrefix(c: Config, half: u32, aux: bool, bits: seq<bool>, k: nat)
    requires ConfigOk(c) && k < |bits|
    ensures BitsStates(c, half, aux, bits[..k + 1])
      == BitsStates(c, half, aux, bits[..k]) + BitStates(c, half, aux, bits[k])
  {
    assert bits[..k + 1] == bits[..k] + [bits[k]];
    BitsStatesAppend(c, half, aux, bits[..k], bits[k]);
  }

  lemma EmittedPrefix(c: Config, half: u32, aux: bool, start: seq<El>, bits: seq<bool>, k: nat, after: seq<El>)
    requires ConfigOk(c) && k <= |bits| && Emitted(start, BitsStates(c, half, aux, bits[..k]), false, after)
    ensures Emitted(start, BitsStates(c, half, aux, bits), false, after)
  {
    var a, b := BitsStates(c, half, aux, bits[..k]), BitsStates(c, half, aux, bits[k..]);
    BitsStatesCut(c, half, aux, bits, k);
    EmittedFailure(start, a, b, after, after);
  }

  lemma BitsStatesCut(c: Config, half: u32, aux: bool, bits: seq<bool>, k: nat)
    requires ConfigOk(c) && k <= |bits|
    ensures BitsStates(c, half, aux, bits) == BitsStates(c, half, aux, bits[..k]) + BitsStates(c, half, aux, bits[k..])
  {
    var a, b := bits[..k], bits[k..];
    assert bits == a + b;
    BitsStatesConcat(c, half, aux, a, b);
  }

  lemma EmittedByte(c: Config, half: u32, aux: bool, start: seq<El>, data: seq<bv8>, k: nat, mid: seq<El>, ok: bool,
                    after: seq<El>)
    requires ConfigOk(c) && k < |data|
    requires Emitted(start, BitsStates(c, half, aux, AllBits(c.order, data[..k])), true, mid)
    requires Emitted(mid, BitsStates(c, half, aux, BitsOf(c.order, data[k])), ok, after)
    ensures Emitted(start, BitsStates(c, half, aux, AllBits(c.order, data[..k + 1])), ok, after)
    ensures !ok ==> Emitted(start, BitsStates(c, half, aux, AllBits(c.order, data)), ok, after)
  {
    var some, bits := AllBits(c.order, data[..k]), BitsOf(c.order, data[k]);
    AllBitsPrefix(c.order, data, k);
    BitsStatesConcat(c, half, aux, some, bits);
    EmittedBoth(start, BitsStates(c, half, aux, some), mid, BitsStates(c, half, aux, bits), ok, after);
    if !ok {
      AllBitsCut(c.order, data, k + 1);
      EmittedPrefix(c, half, aux, start, AllBits(c.order, data), |some + bits|, after);
    }
  }

  lemma AllBitsPrefix(order: BitOrder, data: seq<bv8>, k: nat)
    requires k < |data|
    ensures AllBits(order, data[..k + 1]) == AllBits(order, data[..k]) + BitsOf(order, data[k])
  {
    assert data[..k + 1] == data[..k] + [data[k]];
    AllBitsAppend(order, data[..k], data[k]);
  }

  lemma AllBitsCut(order: BitOrder, data: seq<bv8>, k: nat)
    requires k <= |data|
    ensures var some, all := AllBits(order, data[..k]), AllBits(order, data);
      |some| <= |all| && all[..|some|] == some
  {
    AllBitsConcat(order, data[..k], data[k..]);
    assert data[..k] + data[k..] == data;
  }

  lemma LastOfMore(order: BitOrder, data: seq<bv8>, k: nat, mosi: bool)
    requires k < |data|
    ensures LastBit(AllBits(order, data[..k + 1]), mosi)
      == LastBit(BitsOf(order, data[k]), LastBit(AllBits(order, data[..k]), mosi))
  {
    AllBitsPrefix(order, data, k);
  }

  // ----- a whole session

  lemma OneMoreFrame(c: Config, frames: seq<seq<bool>>, ts: seq<Transaction>, t: Transaction, frames': seq<seq<bool>>)
    requires Decoded(c.order, frames) == Visible(c, ts)
    requires frames' == frames + if IsVisible(c, t.data) then [AllBits(c.order, t.data)] else []
    ensures Decoded(c.order, frames') == Visible(c, ts + [t])
  {
    assert (ts + [t])[..|ts|] == ts;
    if IsVisible(c, t.data) {
      DecodedAppend(c.order, frames, AllBits(c.order, t.data));
      BytesRoundTrip(c.order, t.data);
    }
  }

  /** A receiver between transactions that has recovered exactly these. */
  ghost predicate Recovered(c: Config, rx: Rx, ts: seq<Transaction>)
  {
    !rx.active && rx.clean && Rests(c.mode, rx) && Decoded(c.order, rx.frames) == Visible(c, ts)
  }

  lemma RecoveredNothing(c: Config, half: u32)
    requires ConfigOk(c)
    ensures Recovered(c, Hear(c, PowerUp(WiringOf(c)), AllStates(c, half, [])), [])
  {
    HearIdle(c, c.auxDefault, false, PowerUp(WiringOf(c)), 1);
  }

  lemma HearLast(c: Config, half: u32, ts: seq<Transaction>, rx: Rx)
    requires ConfigOk(c) && ts != []
    ensures var before := ts[..|ts| - 1];
      Hear(c, rx, AllStates(c, half, ts)) == Hear(c, Hear(c, rx, AllStates(c, half, before)),
                                                  TransactionStates(c, half, false, MosiAfter(c, before), ts[|ts| - 1]))
  {
    var before := ts[..|ts| - 1];
    var last := TransactionStates(c, half, false, MosiAfter(c, before), ts[|ts| - 1]);
    HearConcat(c, rx, AllStates(c, half, before), last);
  }

  lemma FramedMore(c: Config, rx: Rx, rx': Rx, ts: seq<Transaction>)
    requires ts != [] && Recovered(c, rx, ts[..|ts| - 1]) && Framed(c, rx, rx', ts[|ts| - 1].data)
    ensures Recovered(c, rx', ts)
  {
    OneMoreFrame(c, rx.frames, ts[..|ts| - 1], ts[|ts| - 1], rx'.frames);
    assert ts[..|ts| - 1] + [ts[|ts| - 1]] == ts;
  }

  lemma {:induction false} RecoveredMore(c: Config, half: u32, ts: seq<Transaction>, rx: Rx)
    requires ConfigOk(c) && half > 0 && ts != []
    requires rx == Hear(c, PowerUp(WiringOf(c)), AllStates(c, half, ts[..|ts| - 1])) && Recovered(c, rx, ts[..|ts| - 1])
    ensures Recovered(c, Hear(c, PowerUp(WiringOf(c)), AllStates(c, half, ts)), ts)
  {
    HearLast(c, half, ts, PowerUp(WiringOf(c)));
    RecoveredLast(c, half, ts, rx, MosiAfter(c, ts[..|ts| - 1]));
  }

  lemma RecoveredLast(c: Config, half: u32, ts: seq<Transaction>, rx: Rx, mosi: bool)
    requires ConfigOk(c) && half > 0 && ts != [] && Recovered(c, rx, ts[..|ts| - 1])
    ensures Recovered(c, Hear(c, rx, TransactionStates(c, half, false, mosi, ts[|ts| - 1])), ts)
  {
    HearTransaction(c, half, mosi, ts[|ts| - 1], rx);
    FramedMore(c, rx, Hear(c, rx, TransactionStates(c, half, false, mosi, ts[|ts| - 1])), ts);
  }

  /** From the states of a list of transactions a receiver recovers exactly their bytes, from clean samples. */
  lemma {:induction false} AllRecovered(c: Config, half: u32, ts: seq<Transaction>)
    requires ConfigOk(c) && half > 0
    ensures Recovered(c, Hear(c, PowerUp(WiringOf(c)), AllStates(c, half, ts)), ts)
  {
    if ts == [] {
      RecoveredNothing(c, half);
    } else {
      AllRecovered(c, half, ts[..|ts| - 1]);
      RecoveredMore(c, half, ts, Hear(c, PowerUp(WiringOf(c)), AllStates(c, half, ts[..|ts| - 1])));
    }
  }

  lemma EmittedIsMerged(states: seq<El>, ok: bool, s: seq<El>)
    requires Emitted([], states, ok, s)
    ensures ok <==> !HasLongRun(states)
    ensures ok ==> Merged(states) == Ok(s)
  {
    PushAllIsMerge(states);
    MergeFailure(states);
  }

  lemma AllStatesCut(c: Config, half: u32, ts: seq<Transaction>, k: nat, s: seq<El>, ok: bool, s': seq<El>)
    requires ConfigOk(c) && k < |ts| && Emitted([], AllStates(c, half, ts[..k]), true, s)
    requires Emitted(s, TransactionStates(c, half, false, MosiAfter(c, ts[..k]), ts[k]), ok, s')
    ensures Emitted([], AllStates(c, half, ts[..k + 1]), ok, s')
  {
    assert ts[..k + 1][..k] == ts[..k];
    var states := TransactionStates(c, half, false, MosiAfter(c, ts[..k]), ts[k]);
    EmittedBoth([], AllStates(c, half, ts[..k]), s, states, ok, s');
  }

  /** A transfer that fails after some transactions fails with more. */
  lemma {:induction false} AllStatesFail(c: Config, half: u32, ts: seq<Transaction>, k: nat, s: seq<El>)
    requires ConfigOk(c) && k <= |ts| && Emitted([], AllStates(c, half, ts[..k]), false, s)
    ensures Emitted([], AllStates(c, half, ts), false, s)
    decreases |ts|
  {
    if k < |ts| {
      var before := ts[..|ts| - 1];
      assert before[..k] == ts[..k];
      AllStatesFail(c, half, before, k, s);
      var states := TransactionStates(c, half, false, MosiAfter(c, before), ts[|ts| - 1]);
      EmittedFailure([], AllStates(c, half, before), states, s, s);
    } else {
      assert ts[..k] == ts;
    }
  }

  /** Each transaction in turn, on a builder that has emitted nothing but its idle tick. */
  method SendEach(b: SequenceBuilder, transactions: seq<Transaction>) returns (ok: bool)
    requires b.Valid() && !b.selected && !b.mosi && b.sequence == AllStates(b.cfg, b.halfPeriod, [])
    modifies b
    ensures b.Valid() && Emitted([], AllStates(b.cfg, b.halfPeriod, transactions), ok, b.sequence)
  {
    ghost var c, half := b.cfg, b.halfPeriod;
    assert transactions[..0] == [];
    FirstState(c, half);
    for k := 0 to |transactions|
      invariant b.Valid() && !b.selected && b.mosi == MosiAfter(c, transactions[..k])
      invariant Emitted([], AllStates(c, half, transactions[..k]), true, b.sequence)
    {
      ok := SendNext(b, transactions[k], transactions, k);
      if !ok {
        AllStatesFail(c, half, transactions, k + 1, b.sequence);
        return;
      }
    }
    assert transactions[..|transactions|] == transactions;
    ok := true;
  }

  lemma MosiNext(c: Config, ts: seq<Transaction>, k: nat)
    requires k < |ts|
    ensures MosiAfter(c, ts[..k + 1]) == LastBit(AllBits(c.order, ts[k].data), MosiAfter(c, ts[..k]))
  {
    assert ts[..k + 1][..k] == ts[..k];
  }

  method SendNext(b: SequenceBuilder, t: Transaction, ghost ts: seq<Transaction>, ghost k: nat) returns (ok: bool)
    requires b.Valid() && !b.selected && k < |ts| && t == ts[k] && b.mosi == MosiAfter(b.cfg, ts[..k])
    requires Emitted([], AllStates(b.cfg, b.halfPeriod, ts[..k]), true, b.sequence)
    modifies b
    ensures b.Valid() && Emitted([], AllStates(b.cfg, b.halfPeriod, ts[..k + 1]), ok, b.sequence)
    ensures ok ==> !b.selected && b.mosi == MosiAfter(b.cfg, ts[..k + 1])
  {
    ghost var before, m := b.sequence, b.mosi;
    MosiNext(b.cfg, ts, k);
    b.SetAux(t.aux);
    ok := b.WriteTransaction(t.data);
    assert Transaction(t.aux, t.data) == t;
    AllStatesCut(b.cfg, b.halfPeriod, ts, k, before, ok, b.sequence);
  }

  lemma ProperIsShort(states: seq<El>)
    requires Proper(states)
    ensures Length(states) <= U32_MAX ==> !HasLongRun(states)
  {
    if Length(states) <= U32_MAX {
      forall i | 0 <= i < |states| ensures states[i].IsRegular() { LoadClocks(states[i].count, states[i].value, 0); }
      ShortHasNoLongRun(states);
    }
  }

  lemma SessionOutcome(c: Config, half: u32, ts: seq<Transaction>, ok: bool, s: seq<El>)
    requires ConfigOk(c) && half > 0 && Emitted([], AllStates(c, half, ts), ok, s)
    ensures ok <==> !HasLongRun(AllStates(c, half, ts))
    ensures ok ==> Merged(AllStates(c, half, ts)) == Ok(s) && Recovered(c, Seen(c, Waveform(s, 0)), ts)
    ensures Length(AllStates(c, half, ts)) <= U32_MAX ==> ok
  {
    ProperIsShort(AllStates(c, half, ts));
    EmittedIsMerged(AllStates(c, half, ts), ok, s);
    if ok {
      EmittedIsHeard(c, [], AllStates(c, half, ts), s);
      assert Seen(c, Waveform([], 0)) == PowerUp(WiringOf(c));
      AllRecovered(c, half, ts);
    }
  }

  /**
    `set_aux` and `write_transaction` for each, on a fresh builder; null when the configuration is
    rejected. The sequence is the list of all emitted states with equal neighbours joined, and it
    fails exactly if one such run exceeds 2^32-1 ticks. A receiver with the same wiring recovers
    exactly the bytes of every transaction in which chip select was active at all, from clean samples.
  */
  method SendAll(cfg: Config, transactions: seq<Transaction>) returns (b: SequenceBuilder?, ok: bool)
    ensures b == null <==> !ConfigOk(cfg) || HalfPeriod(cfg).Err?
    ensures b != null ==> b.cfg == cfg && b.Valid() && b.halfPeriod == HalfPeriod(cfg).value
    ensures b != null ==> (ok <==> !HasLongRun(AllStates(cfg, b.halfPeriod, transactions)))
    ensures b != null && Length(AllStates(cfg, b.halfPeriod, transactions)) <= U32_MAX ==> ok
    ensures b != null && ok ==>
      Merged(AllStates(cfg, b.halfPeriod, transactions)) == Ok(b.sequence) && Recovered(cfg, b.View(), transactions)
  {
    if !ConfigOk(cfg) || HalfPeriod(cfg).Err? { return null, false; }
    b := new SequenceBuilder(cfg);
    ok := SendEach(b, transactions);
    SessionOutcome(cfg, b.halfPeriod, transactions, ok, b.sequence);
  }

  lemma FirstState(c: Config, half: u32)
    requires ConfigOk(c)
    ensures Emitted([], AllStates(c, half, []), true, AllStates(c, half, []))
  {
    var x := Load(1, ComposePins(c, Cpol(c.mode), false, false, c.auxDefault));
    PushOne([], x);
    assert [] + [x] == [x];
  }
}
