/** The DMA transport: scheduling descriptors into a bounded FIFO while the engine drains it. */
module Dma {
  import opened Wrappers
  import opened Scan

  const DEPTH: nat := 32

  /** A source address and a length in bytes. */
  datatype Descriptor = Descriptor(address: nat, length: nat)

  ghost function Copies(d: Descriptor, n: nat): seq<Descriptor> { seq(n, _ => d) }

  lemma CopiesAppend(d: Descriptor, n: nat)
    ensures Copies(d, n) + [d] == Copies(d, n + 1)
  {
  }

  lemma CopiesPrefix(d: Descriptor, m: nat, n: nat, tail: seq<Descriptor>)
    requires m <= n
    ensures IsPrefix(Copies(d, m), Copies(d, n) + tail)
  {
  }

  /**
    The descriptor FIFO and the engine behind it. Between any two host actions a started engine
    consumes any number of descriptors. Two ghost fields record what happened over a whole
    transfer: the fullest the FIFO got, and polls that found no space with the engine stopped.
  */
  class Engine {
    var fifo: seq<Descriptor>
    var started: bool
    ghost var consumed: seq<Descriptor>
    ghost var peak: nat
    ghost var hopelessPolls: nat

    constructor ()
      ensures fifo == [] && !started && consumed == [] && peak == 0 && hopelessPolls == 0
    {
      fifo, started, consumed, peak, hopelessPolls := [], false, [], 0, 0;
    }

    /** Everything submitted so far, in order. */
    ghost function Submitted(): seq<Descriptor>
      reads this
    {
      consumed + fifo
    }

    /** Stops the dispatcher and empties its FIFO. */
    method Reset()
      modifies this
      ensures fifo == [] && !started && consumed == [] && peak == 0 && hopelessPolls == 0
    {
      fifo, started, consumed, peak, hopelessPolls := [], false, [], 0, 0;
    }

    /** The engine's turn: it takes descriptors from the front, if it has been started. */
    method Run()
      modifies this`fifo, this`consumed
      ensures Submitted() == old(Submitted()) && |fifo| <= |old(fifo)|
      ensures !started ==> fifo == old(fifo)
    {
      if started {
        var k :| 0 <= k <= |fifo|;
        assert consumed + fifo[..k] + fifo[k..] == consumed + fifo;
        fifo, consumed := fifo[k..], consumed + fifo[..k];
      }
    }

    /** Writes one descriptor; addresses must fit 32 bits and lengths are cut to 32 bits. */
    method Enqueue(address: nat, length: nat) returns (ok: bool)
      modifies this`fifo, this`consumed, this`peak
      ensures ok <==> address < U32_RANGE
      ensures Submitted() == old(Submitted()) + if ok then [Descriptor(address, length % U32_RANGE)] else []
      ensures |fifo| <= |old(fifo)| + 1 && (!started ==> |fifo| == |old(fifo)| + if ok then 1 else 0)
      ensures peak == if |fifo| > old(peak) then |fifo| else old(peak)
      ensures !ok ==> |fifo| <= |old(fifo)|
    {
      Run();
      ok := address < U32_RANGE;
      if ok {
        fifo := fifo + [Descriptor(address, length % U32_RANGE)];
        assert consumed + fifo == old(Submitted()) + [Descriptor(address, length % U32_RANGE)];
      } else {
        assert old(Submitted()) + [] == old(Submitted());
      }
      if |fifo| > peak { peak := |fifo|; }
    }

    method Initiate()
      modifies this`started
      ensures started
    {
      started := true;
    }

    method ReadFill() returns (fill: nat)
      modifies this`fifo, this`consumed
      ensures Submitted() == old(Submitted()) && fill == |fifo| <= |old(fifo)|
      ensures !started ==> fifo == old(fifo)
    {
      Run();
      fill := |fifo|;
    }

    /** Polls until the FIFO has space; `patience` is what is left of the watchdog. */
    method AwaitSpace(patience: nat) returns (ok: bool)
      modifies this`fifo, this`consumed, this`hopelessPolls
      ensures Submitted() == old(Submitted()) && |fifo| <= |old(fifo)|
      ensures ok ==> |fifo| < DEPTH - 2
      ensures !started ==> fifo == old(fifo)
      ensures |old(fifo)| < DEPTH - 2 || started ==> hopelessPolls == old(hopelessPolls)
      ensures !ok && patience > 0 ==> |fifo| >= DEPTH - 2
    {
      for polls := 0 to patience
        invariant Submitted() == old(Submitted()) && |fifo| <= |old(fifo)|
        invariant !started ==> fifo == old(fifo)
        invariant |old(fifo)| < DEPTH - 2 || started ==> hopelessPolls == old(hopelessPolls)
        invariant polls > 0 ==> |fifo| >= DEPTH - 2
      {
        var fill := ReadFill();
        if fill < DEPTH - 2 { return true; }
        if !started { hopelessPolls := hopelessPolls + 1; }
      }
      return false;
    }

    /** Polls until the engine is no longer busy. */
    method AwaitIdle(patience: nat) returns (ok: bool)
      modifies this`fifo, this`consumed
      ensures Submitted() == old(Submitted()) && (ok ==> fifo == [])
      ensures !ok && patience > 0 ==> fifo != []
    {
      for polls := 0 to patience
        invariant Submitted() == old(Submitted()) && (polls > 0 ==> fifo != [])
      {
        var fill := ReadFill();
        if fill == 0 { return true; }
      }
      return false;
    }
  }

  /** A staging buffer: where it starts and how many bytes it has. */
  datatype Staging = Staging(base: nat, maxSize: nat)

  /** The checks of `enqueue_sdram_range`. */
  predicate RangeOk(buffer: Staging, offset: nat, size: nat)
  {
    && size != 0 && offset <= buffer.maxSize && size <= buffer.maxSize - offset
    && offset <= U64_RANGE - 1 - buffer.base && buffer.base + offset < U32_RANGE && size < U32_RANGE
  }

  /** What is transferred lies in the buffer and below 4 GiB, and is something. */
  lemma RangeOkIff(buffer: Staging, offset: nat, size: nat)
    ensures RangeOk(buffer, offset, size) <==>
      0 < size < 0x1_0000_0000 && offset + size <= buffer.maxSize && buffer.base + offset < 0x1_0000_0000
  {
  }

  method EnqueueRange(engine: Engine, buffer: Staging, offset: nat, size: nat) returns (ok: bool)
    modifies engine`fifo, engine`consumed, engine`peak
    ensures ok <==> 0 < size < U32_RANGE && offset + size <= buffer.maxSize && buffer.base + offset < U32_RANGE
    ensures ok ==> engine.Submitted() == old(engine.Submitted()) + [Descriptor(buffer.base + offset, size)]
    ensures !ok ==> engine.Submitted() == old(engine.Submitted())
    ensures |engine.fifo| <= |old(engine.fifo)| + 1
    ensures !engine.started && ok ==> |engine.fifo| == |old(engine.fifo)| + 1
    ensures engine.peak <= old(engine.peak) || engine.peak == |engine.fifo|
  {
    if size == 0 || offset > buffer.maxSize || size > buffer.maxSize - offset { return false; }
    if offset > U64_RANGE - 1 - buffer.base || size >= U32_RANGE { return false; }
    ok := engine.Enqueue(buffer.base + offset, size);
    if !ok { assert engine.Submitted() == old(engine.Submitted()) + [] == old(engine.Submitted()); }
  }

  ghost function Tail(last: Option<Descriptor>): seq<Descriptor> { if last.Some? then [last.value] else [] }

  /** What a transfer of `repetitions` copies submits; 0 means endlessly many, of which n have been. */
  ghost function Plan(d: Descriptor, n: nat, last: Option<Descriptor>): seq<Descriptor>
  {
    Copies(d, n) + Tail(last)
  }

  /** How a transfer ends: all done, an argument was rejected, or a watchdog ran out. */
  datatype Outcome = Done | Rejected | TimedOut

  /** A watchdog only runs out on an engine that was started and still has work. */
  ghost predicate Stalled(engine: Engine, patience: nat)
    reads engine
  {
    patience == 0 || (engine.started && engine.fifo != [])
  }

  /** The state between two rounds of the loop. */
  ghost predicate BetweenRounds(engine: Engine, d: Descriptor, n: nat)
    reads engine
  {
    && engine.Submitted() == Copies(d, n) && |engine.fifo| < DEPTH - 2
    && engine.peak <= DEPTH - 2 && engine.hopelessPolls == 0
    && (engine.started <==> n > DEPTH - 4)
  }

  /** One round: enqueue a copy, start the engine in the 29th, wait for space. */
  method Round(engine: Engine, buffer: Staging, size: nat, n: nat, patience: nat) returns (r: Outcome)
    requires BetweenRounds(engine, Descriptor(buffer.base, size % U32_RANGE), n)
    modifies engine
    ensures Safe(engine)
    ensures r.Rejected? <==> buffer.base >= U32_RANGE
    ensures r.TimedOut? ==> Stalled(engine, patience)
    ensures r.Done? ==> (engine.started <==> n + 1 >= 29) && |engine.fifo| < 30
    ensures var d := Descriptor(buffer.base, size % U32_RANGE);
      && (r.Done? ==> BetweenRounds(engine, d, n + 1))
      && (!r.Done? ==> engine.Submitted() == Copies(d, if r.Rejected? then n else n + 1))
  {
    ghost var d := Descriptor(buffer.base, size % U32_RANGE);
    CopiesAppend(d, n);
    var ok := engine.Enqueue(buffer.base, size);
    if !ok {
      assert engine.Submitted() == Copies(d, n) + [] == Copies(d, n);
      return Rejected;
    }
    if n == DEPTH - 4 { engine.Initiate(); }
    ok := engine.AwaitSpace(patience);
    return if ok then Done else TimedOut;
  }

  /** What happened over a whole transfer, however it ended. */
  ghost predicate Safe(engine: Engine)
    reads engine
  {
    engine.peak <= DEPTH - 2 && engine.hopelessPolls == 0
  }

  /** The descriptor of the optional terminator. */
  ghost function Terminator(buffer: Staging, last: Option<(nat, nat)>): Option<Descriptor>
  {
    if last.None? then None else Some(Descriptor(buffer.base + last.value.0, last.value.1))
  }

  predicate LastOk(buffer: Staging, last: Option<(nat, nat)>)
  {
    last.Some? ==> RangeOk(buffer, last.value.0, last.value.1)
  }

  /**
    `transfer_multiple_times` with a positive or zero (endless) repetition count. `patience` bounds
    the polls of each wait and `rounds` the rounds of an endless transfer; running out of either
    is an abort. In every case and for every behaviour of the engine the FIFO never holds more
    than 30 descriptors and space is never awaited from a stopped engine.
  */
  method TransferMultipleTimes(engine: Engine, buffer: Staging, size: nat, repetitions: nat,
                               last: Option<(nat, nat)>, patience: nat, rounds: nat)
    returns (r: Outcome)
    modifies engine
    ensures Safe(engine) && engine.peak <= 30
    ensures var d, end := Descriptor(buffer.base, size % U32_RANGE), Terminator(buffer, last);
      && (r.Done? ==> repetitions > 0 && engine.fifo == [] && engine.consumed == Plan(d, repetitions, end))
      && (r.Rejected? ==> buffer.base >= U32_RANGE || !LastOk(buffer, last))
      && (r.Done? ==> buffer.base < U32_RANGE && LastOk(buffer, last))
      && (r.TimedOut? && repetitions > 0 ==> Stalled(engine, patience))
      && (repetitions > 0 ==> IsPrefix(engine.Submitted(), Plan(d, repetitions, end)))
      && (repetitions == 0 ==> exists n :: engine.Submitted() == Copies(d, n))
  {
    ghost var d, end := Descriptor(buffer.base, size % U32_RANGE), Terminator(buffer, last);
    engine.Reset();
    var n := 0;
    while n < repetitions || repetitions == 0
      invariant BetweenRounds(engine, d, n) && (repetitions > 0 ==> n <= repetitions)
      invariant n > 0 ==> buffer.base < U32_RANGE
      decreases if repetitions == 0 then rounds - n else repetitions - n
    {
      if repetitions == 0 && n >= rounds { return TimedOut; }
      r := Round(engine, buffer, size, n, patience);
      if !r.Done? {
        if repetitions > 0 { CopiesPrefix(d, if r.Rejected? then n else n + 1, repetitions, Tail(end)); }
        return;
      }
      n := n + 1;
    }
    r := Finish(engine, buffer, d, n, last, patience);
  }

  /** After the last round: the optional terminator, the start if it has not happened yet, and the final wait. */
  method Finish(engine: Engine, buffer: Staging, ghost d: Descriptor, ghost n: nat, last: Option<(nat, nat)>,
                patience: nat)
    returns (r: Outcome)
    requires BetweenRounds(engine, d, n)
    modifies engine
    ensures Safe(engine)
    ensures r.Rejected? <==> !LastOk(buffer, last)
    ensures r.TimedOut? ==> Stalled(engine, patience)
    ensures r.Done? ==> engine.fifo == []
    ensures engine.Submitted() == if r.Rejected? then Copies(d, n) else Plan(d, n, Terminator(buffer, last))
    ensures IsPrefix(engine.Submitted(), Plan(d, n, Terminator(buffer, last)))
    ensures r.Done? ==> engine.consumed == engine.Submitted()
  {
    ghost var end := Terminator(buffer, last);
    assert Copies(d, n) + [] == Copies(d, n);
    CopiesPrefix(d, n, n, Tail(end));
    if last.Some? {
      var ok := EnqueueRange(engine, buffer, last.value.0, last.value.1);
      if !ok { return Rejected; }
      ok := engine.AwaitSpace(patience);
      if !ok { return TimedOut; }
    }
    assert engine.Submitted() == Plan(d, n, end);
    engine.Initiate();
    var ok := engine.AwaitIdle(patience);
    if ok { assert engine.consumed + [] == engine.consumed; }
    return if ok then Done else TimedOut;
  }
}
