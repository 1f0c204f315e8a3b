/**
  The web controller's tracked settings and the combiner registers that should realise them.
  Every access to a register may throw, also between the two writes of one operation; which ones
  do is left to chance, so each contract holds for every pattern of failures.
*/
module Controller {
  import opened Bits
  import opened Combiner

  datatype PortState = PortState(invert: word, mask: word, forceEnabled: bool, forceValue: word)

  datatype Request = Request(mode: CombinationMode, output: PortState, inputs: seq<PortState>) {
    predicate Shaped() { |inputs| == 4 }

    function At(n: Port): PortState
      requires Shaped()
    {
      if n == 0 then output else inputs[n - 1]
    }
  }

  datatype Override = Override(enabled: bool, value: word)

  /** The base configuration with the override on its output. */
  function Effective(r: Request, o: Override): Request
  {
    if o.enabled then r.(output := r.output.(forceEnabled := true, forceValue := o.value)) else r
  }

  datatype TriggerState = TriggerState(mode: CombinationMode, invert: seq<word>, mask: seq<word>) {
    /** Five inversions and, for the inputs 1 to 4, four masks. */
    predicate Shaped() { |invert| == 5 && |mask| == 4 }
  }

  datatype ClockState = ClockState(source: nat, core: string, internal: string)

  // ----- registers that realise settings

  ghost predicate PortRealised(regs: Registers, n: Port, p: PortState)
    requires regs.Shaped()
  {
    && regs.invert[n] == p.invert && regs.mask[n] == p.mask && regs.value[n] == p.forceValue
    && (Forced(regs.cfg, n) <==> p.forceEnabled)
  }

  ghost predicate Realises(regs: Registers, r: Request)
  {
    && regs.Shaped() && r.Shaped() && regs.cfg * MODE_BITS == ModeBits(r.mode)
    && forall n: Port :: PortRealised(regs, n, r.At(n))
  }

  /** Bit i of the mode number is bit i of the configuration word. */
  ghost predicate ShowsMode(cfg: Cfg, m: CombinationMode)
  {
    && (0 in cfg <==> m % 2 == 1) && (1 in cfg <==> m / 2 % 2 == 1)
    && (2 in cfg <==> m / 4 % 2 == 1) && (3 in cfg <==> m / 8 % 2 == 1)
  }

  /**
    The registers, one by one, for a base configuration and an override: the override forces its
    value on the output and leaves everything else to the base configuration.
  */
  ghost predicate Shows(regs: Registers, r: Request, o: Override)
  {
    && regs.Shaped() && r.Shaped() && ShowsMode(regs.cfg, r.mode)
    && regs.invert == [r.output.invert] + seq(4, i requires 0 <= i < 4 => r.inputs[i].invert)
    && regs.mask == [r.output.mask] + seq(4, i requires 0 <= i < 4 => r.inputs[i].mask)
    && regs.value == [if o.enabled then o.value else r.output.forceValue]
                     + seq(4, i requires 0 <= i < 4 => r.inputs[i].forceValue)
    && (16 in regs.cfg <==> o.enabled || r.output.forceEnabled)
    && forall i :: 0 <= i < 4 ==> (17 + i in regs.cfg <==> r.inputs[i].forceEnabled)
  }

  lemma ShowsModeIff(cfg: Cfg, m: CombinationMode)
    ensures cfg * MODE_BITS == ModeBits(m) <==> ShowsMode(cfg, m)
  {
    var c := cfg * MODE_BITS;
    assert (0 in c <==> 0 in cfg) && (1 in c <==> 1 in cfg) && (2 in c <==> 2 in cfg) && (3 in c <==> 3 in cfg);
    if ShowsMode(cfg, m) {
      forall i: nat ensures i in c <==> i in ModeBits(m) { }
    }
  }

  ghost predicate ShowsPort(regs: Registers, n: Port, invert: word, mask: word, value: word, forced: bool)
    requires regs.Shaped()
  {
    && regs.invert[n] == invert && regs.mask[n] == mask && regs.value[n] == value
    && (16 + n in regs.cfg <==> forced)
  }

  lemma ShowsPorts(regs: Registers, r: Request, o: Override)
    requires regs.Shaped() && r.Shaped()
    ensures Shows(regs, r, o) <==>
      && ShowsMode(regs.cfg, r.mode)
      && ShowsPort(regs, 0, r.output.invert, r.output.mask, if o.enabled then o.value else r.output.forceValue,
                   o.enabled || r.output.forceEnabled)
      && forall i :: 0 <= i < 4 ==>
           ShowsPort(regs, i + 1, r.inputs[i].invert, r.inputs[i].mask, r.inputs[i].forceValue,
                     r.inputs[i].forceEnabled)
  {
  }

  /** Being in step, said of the registers alone. */
  lemma RealisesIff(regs: Registers, r: Request, o: Override)
    requires regs.Shaped() && r.Shaped()
    ensures Realises(regs, Effective(r, o)) <==> Shows(regs, r, o)
  {
    ShowsModeIff(regs.cfg, r.mode);
    ShowsPorts(regs, r, o);
    var e := Effective(r, o);
    if Realises(regs, e) {
      assert PortRealised(regs, 0, e.At(0));
      forall i | 0 <= i < 4
        ensures ShowsPort(regs, i + 1, r.inputs[i].invert, r.inputs[i].mask, r.inputs[i].forceValue,
                          r.inputs[i].forceEnabled)
      {
        assert PortRealised(regs, i + 1, e.At(i + 1));
      }
    }
    if Shows(regs, r, o) {
      forall n: Port ensures PortRealised(regs, n, e.At(n)) {
        if n > 0 { assert e.At(n) == r.inputs[n - 1]; }
      }
    }
  }

  /** The trigger combiner has no forced ports and no output mask to set. */
  ghost predicate TriggerRealised(regs: Registers, t: TriggerState)
  {
    && regs.Shaped() && t.Shaped() && regs.cfg * MODE_BITS == ModeBits(t.mode)
    && regs.invert == t.invert && regs.mask[1..] == t.mask
  }

  /** Registers agree on the mode and on every port but n. */
  ghost predicate SameElsewhere(a: Registers, b: Registers, n: Port)
    requires a.Shaped() && b.Shaped()
  {
    && a.cfg * MODE_BITS == b.cfg * MODE_BITS
    && forall k: Port :: k != n ==> PortRealised(a, k, PortState(b.invert[k], b.mask[k], Forced(b.cfg, k), b.value[k]))
  }

  /** `apply_port_locked`. A fault may leave the port half written, and the shadow ahead of the register. */
  method ApplyPort(b: Block, n: Port, p: PortState) returns (ok: bool)
    requires b.Valid() && b.shadow == b.regs.cfg
    modifies b, b.bus
    ensures b.Valid() && b.bus.faults == old(b.bus.faults) + if ok then 0 else 1
    ensures ok ==> b.shadow == b.regs.cfg && PortRealised(b.regs, n, p) && SameElsewhere(b.regs, old(b.regs), n)
  {
    ok := b.Invert(n, p.invert);
    if !ok { return; }
    ok := b.Mask(n, p.mask);
    if !ok { return; }
    if p.forceEnabled {
      ok := b.Force(n, p.forceValue);
    } else {
      ok := b.ReleaseForce(n);
      if !ok { return; }
      ok := b.SetValue(n, p.forceValue);
    }
  }

  /** Takes over the configuration the hardware has, whatever the shadow was. */
  method Sync(b: Block) returns (ok: bool)
    requires b.Valid()
    modifies b, b.bus
    ensures b.Valid() && b.bus.faults == old(b.bus.faults) + if ok then 0 else 1
    ensures b.regs == old(b.regs) && (ok ==> b.shadow == b.regs.cfg)
  {
    ok := b.bus.Access();
    if !ok { return; }
    ok := b.WriteCfg(b.regs.cfg);
  }

  method SetMode(b: Block, m: CombinationMode) returns (ok: bool)
    requires b.Valid() && b.shadow == b.regs.cfg
    modifies b, b.bus
    ensures b.Valid() && b.bus.faults == old(b.bus.faults) + if ok then 0 else 1
    ensures ok ==> b.shadow == b.regs.cfg && b.regs.cfg * MODE_BITS == ModeBits(m)
  {
    ok := b.Mode(m);
  }

  /** Writes a whole configuration, whatever the registers held before. */
  method ApplyEffective(b: Block, r: Request) returns (ok: bool)
    requires b.Valid() && b.shadow == b.regs.cfg && r.Shaped()
    modifies b, b.bus
    ensures b.Valid() && b.bus.faults == old(b.bus.faults) + if ok then 0 else 1
    ensures ok ==> Realises(b.regs, r)
  {
    ok := SetMode(b, r.mode);
    if !ok { return; }
    ok := ApplyPort(b, 0, r.output);
    if !ok { return; }
    for i := 0 to 4
      invariant b.bus.faults == old(b.bus.faults)
      invariant b.Valid() && b.shadow == b.regs.cfg && b.regs.cfg * MODE_BITS == ModeBits(r.mode)
      invariant forall n: Port :: n <= i ==> PortRealised(b.regs, n, r.At(n))
    {
      ok := ApplyPort(b, i + 1, r.inputs[i]);
      if !ok { return; }
    }
    ok := true;
  }

  method ApplyTriggerRegisters(b: Block, t: TriggerState) returns (ok: bool)
    requires b.Valid() && t.Shaped()
    modifies b, b.bus
    ensures b.Valid() && b.bus.faults == old(b.bus.faults) + if ok then 0 else 1
    ensures ok ==> TriggerRealised(b.regs, t)
  {
    ok := Sync(b);
    if !ok { return; }
    ok := SetMode(b, t.mode);
    if !ok { return; }
    for i := 0 to 5
      invariant b.bus.faults == old(b.bus.faults)
      invariant b.Valid() && b.regs.cfg * MODE_BITS == ModeBits(t.mode)
      invariant forall k :: 0 <= k < i ==> b.regs.invert[k] == t.invert[k]
    {
      ok := b.Invert(i, t.invert[i]);
      if !ok { return; }
    }
    assert b.regs.invert == t.invert;
    for i := 0 to 4
      invariant b.bus.faults == old(b.bus.faults)
      invariant b.Valid() && b.regs.cfg * MODE_BITS == ModeBits(t.mode) && b.regs.invert == t.invert
      invariant forall k :: 0 <= k < i ==> b.regs.mask[k + 1] == t.mask[k]
    {
      ok := b.Mask(i + 1, t.mask[i]);
      if !ok { return; }
    }
    assert b.regs.mask[1..] == t.mask;
    ok := true;
  }

  /** How a request with rollback ends. */
  datatype Outcome = Applied | BadRequest | RolledBack | RestoreFailed

  /** The settings an operation must restore when it fails. */
  datatype Settings = Settings(clock: ClockState, trigger: TriggerState, combiner: Request, override: Override)

  class Web {
    const bus: Bus
    const comb: Block
    const trig: Block
    const initialValue: word
    const profileOk: string -> bool
    var clock: ClockState
    var trigger: TriggerState
    var base: Request
    var shown: Request
    var override: Override
    var shownOverride: Override
    var qout: word
    var qoutStreamer: word

    ghost predicate Valid()
      reads this, comb, trig
    {
      && comb != trig && comb.bus == trig.bus == bus && comb.Valid() && trig.Valid()
      && base.Shaped() && trigger.Shaped() && shownOverride == override
    }

    ghost function Tracked(): Settings
      reads this
    {
      Settings(clock, trigger, base, override)
    }

    /** The output combiner realises the base configuration overlaid with the override, and the status shows it. */
    ghost predicate InSync()
      reads this, comb, trig
    {
      && Valid() && shown == base && Realises(comb.regs, Effective(base, override))
      && qout == if override.enabled then override.value else qoutStreamer
    }

    /** The construction proper; the source then applies the base configuration as `ApplyCombiner` does. */
    constructor (comb: Block, trig: Block, clock: ClockState, trigger: TriggerState, base: Request,
                 selected: bool, initialValue: word, profileOk: string -> bool)
      requires comb != trig && comb.bus == trig.bus && comb.Valid() && trig.Valid() && base.Shaped() && trigger.Shaped()
      ensures Valid() && this.comb == comb && this.trig == trig
      ensures this.initialValue == initialValue && this.profileOk == profileOk
      ensures Tracked() == Settings(clock, trigger, base, Override(selected, 0)) && shown == base
      ensures qoutStreamer == initialValue && qout == if selected then 0 else initialValue
    {
      this.bus := comb.bus;
      this.comb, this.trig, this.clock, this.trigger, this.base, this.shown := comb, trig, clock, trigger, base, base;
      this.initialValue, this.profileOk := initialValue, profileOk;
      override, shownOverride := Override(selected, 0), Override(selected, 0);
      qoutStreamer, qout := initialValue, if selected then 0 else initialValue;
    }

    /** `apply_combiner_config_locked`. */
    method ApplyCombiner(r: Request) returns (ok: bool)
      requires Valid() && r.Shaped()
      modifies this`base, this`shown, comb, bus
      ensures Valid() && (base == r || base == old(base))
      ensures bus.faults == old(bus.faults) + if ok then 0 else 1
      ensures ok ==> base == shown == r && Realises(comb.regs, Effective(r, override))
    {
      ok := Sync(comb);
      if !ok { return; }
      base := r;
      ok := ApplyEffective(comb, Effective(r, override));
      if !ok { return; }
      shown := r;
    }

    /** `apply_streamer_override_locked`. */
    method ApplyOverride(o: Override) returns (ok: bool)
      requires Valid()
      modifies this`base, this`shown, this`override, this`shownOverride, this`qout, comb, bus
      ensures Valid() && base == old(base) && (override == o || override == old(override))
      ensures bus.faults == old(bus.faults) + if ok then 0 else 1
      ensures ok ==> InSync() && override == o
    {
      ok := bus.Access();
      if !ok { return; }
      override, shownOverride := o, o;
      qout := if o.enabled then o.value else qoutStreamer;
      ok := ApplyCombiner(base);
    }

    /** `apply_trigger_config_locked`. */
    method ApplyTrigger(t: TriggerState) returns (ok: bool)
      requires Valid() && t.Shaped()
      modifies this`trigger, trig, bus
      ensures Valid() && (if ok then trigger == t && TriggerRealised(trig.regs, t) else trigger == old(trigger))
      ensures bus.faults == old(bus.faults) + if ok then 0 else 1
    {
      ok := ApplyTriggerRegisters(trig, t);
      if ok { trigger := t; }
    }

    predicate ClockOk(c: ClockState)
    {
      profileOk(c.core) && profileOk(c.internal)
    }

    /** `apply_clock_config_locked`: the state is tracked once both PLLs are set, before measuring. */
    method ApplyClock(c: ClockState) returns (ok: bool)
      modifies this`clock, bus
      ensures (ok ==> clock == c && ClockOk(c)) && (clock == c || clock == old(clock))
      ensures bus.faults == old(bus.faults) + if ok || !ClockOk(c) then 0 else 1
    {
      if !ClockOk(c) { return false; }
      ok := bus.Access();
      if !ok { return; }
      clock := c;
      ok := bus.Access();
    }

    /** `reset_hardware_locked`: on success everything given is tracked and realised. */
    method ResetHardware(s: Settings) returns (ok: bool)
      requires Valid() && s.trigger.Shaped() && s.combiner.Shaped()
      modifies this, comb, trig, bus
      ensures Valid() && (ok ==> ClockOk(s.clock))
      ensures bus.faults == old(bus.faults) || (bus.faults == old(bus.faults) + 1 && !ok)
      ensures !ok && ClockOk(s.clock) ==> bus.faults == old(bus.faults) + 1
      ensures ok ==> Tracked() == s && InSync() && TriggerRealised(trig.regs, s.trigger) && qoutStreamer == initialValue
    {
      ok := bus.Access();
      if !ok { return; }
      ok := ApplyClock(s.clock);
      if !ok { return; }
      ok := bus.Access();
      if !ok { return; }
      qoutStreamer := initialValue;
      ok := ApplyTrigger(s.trigger);
      if !ok { return; }
      ok := ApplyCombiner(s.combiner);
      if !ok { return; }
      ok := ApplyOverride(s.override);
    }

    /** Applies settings and, if anything throws on the way, the previous ones again. */
    method ApplyOrRestore(s: Settings, ghost previous: Settings) returns (r: Outcome)
      requires Valid() && s.trigger.Shaped() && s.combiner.Shaped() && previous == Tracked()
      modifies this, comb, trig, bus
      ensures Valid() && !r.BadRequest?
      ensures r.Applied? ==> Tracked() == s
      ensures r.RolledBack? ==> Tracked() == previous
      ensures ClockOk(s.clock) ==> (r.Applied? <==> bus.faults == old(bus.faults))
      ensures r.RestoreFailed? && ClockOk(s.clock) ==> bus.faults >= old(bus.faults) + 2 || !ClockOk(previous.clock)
      ensures r.Applied? || r.RolledBack? ==> InSync() && TriggerRealised(trig.regs, trigger)
      ensures r.Applied? || r.RolledBack? ==> qoutStreamer == initialValue
    {
      var saved := Settings(clock, trigger, base, shownOverride);
      var ok := ResetHardware(s);
      if ok { return Applied; }
      ok := ResetHardware(saved);
      return if ok then RolledBack else RestoreFailed;
    }

    /**
      `apply_clock_config`: an unknown profile is refused with nothing touched; otherwise either the
      new clock is in force, or all tracked settings are the previous ones, or the restore itself failed.
    */
    method ApplyClockConfig(requested: ClockState) returns (r: Outcome)
      requires Valid()
      modifies this, comb, trig, bus
      ensures Valid()
      ensures r.BadRequest? <==> !profileOk(requested.core) || !profileOk(requested.internal)
      ensures r.BadRequest? ==> Tracked() == old(Tracked())
      ensures r.BadRequest? ==> comb.regs == old(comb.regs) && trig.regs == old(trig.regs)
      ensures r.Applied? <==> ClockOk(requested) && bus.faults == old(bus.faults)
      ensures r.Applied? ==> Tracked() == old(Tracked()).(clock := requested)
      ensures r.RestoreFailed? ==> bus.faults >= old(bus.faults) + 2 || !ClockOk(old(clock))
      ensures r.RolledBack? ==> Tracked() == old(Tracked())
      ensures r.Applied? || r.RolledBack? ==> InSync() && TriggerRealised(trig.regs, trigger)
    {
      if !ClockOk(requested) { return BadRequest; }
      r := ApplyOrRestore(Settings(requested, trigger, base, shownOverride), Tracked());
    }

    /** `reset_hardware`: tracked settings survive unless the restore fails too. */
    method Reset() returns (r: Outcome)
      requires Valid()
      modifies this, comb, trig, bus
      ensures Valid() && !r.BadRequest?
      ensures r.RestoreFailed? ==> bus.faults >= old(bus.faults) + 2 || !ClockOk(old(clock))
      ensures r.Applied? || r.RolledBack? ==> Tracked() == old(Tracked())
      ensures r.Applied? || r.RolledBack? ==> InSync() && TriggerRealised(trig.regs, trigger)
    {
      r := ApplyOrRestore(Settings(clock, trigger, base, shownOverride), Tracked());
    }

    /** `apply_combiner_config`: a successful change leaves the output in step. */
    method ApplyCombinerConfig(r: Request) returns (ok: bool)
      requires Valid() && r.Shaped()
      modifies this`base, this`shown, comb, bus
      ensures Valid() && (ok ==> base == shown == r && Realises(comb.regs, Effective(r, override)))
      ensures ok && old(InSync()) ==> InSync()
      ensures bus.faults == old(bus.faults) + if ok then 0 else 1
    {
      ok := ApplyCombiner(r);
    }

    /** `apply_trigger_config`: the output combiner is not touched, even by a failure. */
    method ApplyTriggerConfig(t: TriggerState) returns (ok: bool)
      requires Valid() && t.Shaped()
      modifies this`trigger, trig, bus
      ensures Valid() && (ok ==> trigger == t && TriggerRealised(trig.regs, t))
      ensures old(InSync()) ==> InSync()
      ensures bus.faults == old(bus.faults) + if ok then 0 else 1
    {
      ok := ApplyTrigger(t);
    }
  }

  /** The registers determine the configuration they realise. */
  lemma RealisedIsUnique(regs: Registers, a: Request, b: Request)
    requires Realises(regs, a) && Realises(regs, b)
    ensures a == b
  {
    ModeBitsDiffer(a.mode, b.mode);
    forall n: Port ensures a.At(n) == b.At(n) {
      assert PortRealised(regs, n, a.At(n)) && PortRealised(regs, n, b.At(n));
    }
    assert a.At(0) == b.At(0);
    forall i | 0 <= i < 4 ensures a.inputs[i] == b.inputs[i] { assert a.At(i + 1) == b.At(i + 1); }
  }
}
