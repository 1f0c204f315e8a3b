/** The register file of a combiner block and the host's shadow of its configuration word. */
module Combiner {
  import opened Bits

  const ALL_BITS: word := 0xFFFF_FFFF

  /** The configuration word, as the set of its high bit positions. */
  type Cfg = set<nat>

  const MODE_BITS: Cfg := {0, 1, 2, 3}

  /** Port 0 is the output, 1 to 4 are the inputs. */
  type Port = n: nat | n < 5

  /** The combination modes SEL1 to DIFF12. */
  type CombinationMode = m: nat | m < 14

  function ModeBits(m: CombinationMode): (c: Cfg)
    ensures c <= MODE_BITS
  {
    (if m % 2 == 1 then {0} else {}) + (if m / 2 % 2 == 1 then {1} else {})
    + (if m / 4 % 2 == 1 then {2} else {}) + (if m / 8 % 2 == 1 then {3} else {})
  }

  lemma ModeBitsDiffer(m: CombinationMode, n: CombinationMode)
    requires ModeBits(m) == ModeBits(n)
    ensures m == n
  {
    assert forall i: nat :: i in ModeBits(m) <==> i in ModeBits(n);
    assert (0 in ModeBits(m) <==> m % 2 == 1) && (0 in ModeBits(n) <==> n % 2 == 1);
    assert (1 in ModeBits(m) <==> m / 2 % 2 == 1) && (1 in ModeBits(n) <==> n / 2 % 2 == 1);
    assert (2 in ModeBits(m) <==> m / 4 % 2 == 1) && (2 in ModeBits(n) <==> n / 4 % 2 == 1);
    assert (3 in ModeBits(m) <==> m / 8 % 2 == 1) && (3 in ModeBits(n) <==> n / 8 % 2 == 1);
  }

  function WithMode(c: Cfg, m: CombinationMode): Cfg { (c - MODE_BITS) + ModeBits(m) }
  predicate Forced(c: Cfg, n: Port) { 16 + n in c }
  function WithForce(c: Cfg, n: Port): Cfg { c + {16 + n} }
  function WithoutForce(c: Cfg, n: Port): Cfg { c - {16 + n} }
  function WithoutReadback(c: Cfg, n: Port): Cfg { c - {24 + n} }

  /** The hardware shows the live value of a port in place of the stored one. */
  predicate ShowsLive(c: Cfg, n: Port) { 24 + n in c }

  /** What the hardware holds. */
  datatype Registers = Registers(cfg: Cfg, invert: seq<word>, mask: seq<word>, value: seq<word>) {
    predicate Shaped() { |invert| == |mask| == |value| == 5 }
  }

  /** One port with new inversion, mask and value. */
  function WithPort(r: Registers, n: Port, invert: word, mask: word, value: word): Registers
    requires r.Shaped()
  {
    Registers(r.cfg, r.invert[n := invert], r.mask[n := mask], r.value[n := value])
  }

  /** The registers after a hardware reset: input 1 passes through. */
  function Passthrough(): Registers
  {
    Registers({}, seq(5, _ => 0), seq(5, _ => ALL_BITS), seq(5, _ => 0))
  }

  /** The hardware bus: any access may throw, and `faults` counts those that did. */
  class Bus {
    ghost var faults: nat

    constructor ()
      ensures faults == 0
    {
      faults := 0;
    }

    method Access() returns (ok: bool)
      modifies this
      ensures faults == old(faults) + if ok then 0 else 1
    {
      ok := *;
      faults := faults + if ok then 0 else 1;
    }
  }

  /** What the i-th read of a register that holds w returns. */
  type Reading = (nat, word) -> word

  class Block {
    const bus: Bus
    var regs: Registers
    var shadow: Cfg

    ghost predicate Valid()
      reads this
    {
      regs.Shaped()
    }

    /** The shadow starts with no bit set, whatever the registers hold. */
    constructor (bus: Bus, found: Registers)
      requires found.Shaped()
      ensures Valid() && this.bus == bus && regs == found && shadow == {}
    {
      this.bus, regs, shadow := bus, found, {};
    }

    /** The shadow is set first, so a fault in the register write leaves the two different. */
    method WriteCfg(c: Cfg) returns (ok: bool)
      modifies this, bus
      ensures shadow == c && regs == if ok then old(regs).(cfg := c) else old(regs)
      ensures bus.faults == old(bus.faults) + if ok then 0 else 1
    {
      shadow := c;
      ok := bus.Access();
      if ok { regs := regs.(cfg := c); }
    }

    method Mode(m: CombinationMode) returns (ok: bool)
      modifies this, bus
      ensures shadow == WithMode(old(shadow), m) && regs == if ok then old(regs).(cfg := shadow) else old(regs)
      ensures shadow * MODE_BITS == ModeBits(m) && shadow - MODE_BITS == old(shadow) - MODE_BITS
      ensures bus.faults == old(bus.faults) + if ok then 0 else 1
    {
      ok := WriteCfg(WithMode(shadow, m));
    }

    method Invert(n: Port, v: word) returns (ok: bool)
      requires Valid()
      modifies this`regs, bus
      ensures Valid() && regs == if ok then old(regs).(invert := old(regs).invert[n := v]) else old(regs)
      ensures bus.faults == old(bus.faults) + if ok then 0 else 1
    {
      ok := bus.Access();
      if ok { regs := regs.(invert := regs.invert[n := v]); }
    }

    method Mask(n: Port, v: word) returns (ok: bool)
      requires Valid()
      modifies this`regs, bus
      ensures Valid() && regs == if ok then old(regs).(mask := old(regs).mask[n := v]) else old(regs)
      ensures bus.faults == old(bus.faults) + if ok then 0 else 1
    {
      ok := bus.Access();
      if ok { regs := regs.(mask := regs.mask[n := v]); }
    }

    method SetValue(n: Port, v: word) returns (ok: bool)
      requires Valid()
      modifies this`regs, bus
      ensures Valid() && regs == if ok then old(regs).(value := old(regs).value[n := v]) else old(regs)
      ensures bus.faults == old(bus.faults) + if ok then 0 else 1
    {
      ok := bus.Access();
      if ok { regs := regs.(value := regs.value[n := v]); }
    }

    method EnableForce(n: Port) returns (ok: bool)
      modifies this, bus
      ensures shadow == WithForce(old(shadow), n) && regs == if ok then old(regs).(cfg := shadow) else old(regs)
      ensures Forced(shadow, n) && shadow - {16 + n} == old(shadow) - {16 + n}
      ensures bus.faults == old(bus.faults) + if ok then 0 else 1
    {
      ok := WriteCfg(WithForce(shadow, n));
    }

    method ReleaseForce(n: Port) returns (ok: bool)
      modifies this, bus
      ensures shadow == WithoutForce(old(shadow), n) && regs == if ok then old(regs).(cfg := shadow) else old(regs)
      ensures !Forced(shadow, n) && shadow - {16 + n} == old(shadow) - {16 + n}
      ensures bus.faults == old(bus.faults) + if ok then 0 else 1
    {
      ok := WriteCfg(WithoutForce(shadow, n));
    }

    /** The value is stored before forcing is enabled; a fault can come between the two. */
    method Force(n: Port, v: word) returns (ok: bool)
      requires Valid()
      modifies this, bus
      ensures Valid() && bus.faults == old(bus.faults) + if ok then 0 else 1
      ensures ok ==> shadow == WithForce(old(shadow), n)
      ensures ok ==> regs == old(regs).(value := old(regs).value[n := v], cfg := shadow)
    {
      ok := SetValue(n, v);
      if !ok { return; }
      ok := EnableForce(n);
    }

    /** Switches readback of the port to the stored value and reads it; `live` is what else it might show. */
    method GetForce(n: Port, look: Reading, k: nat) returns (ok: bool, v: word)
      requires Valid()
      modifies this, bus
      ensures Valid() && bus.faults == old(bus.faults) + if ok then 0 else 1
      ensures regs == old(regs).(cfg := regs.cfg)
      ensures ok ==> shadow == WithoutReadback(old(shadow), n) == regs.cfg && v == look(k, regs.value[n])
    {
      v := 0;
      ok := WriteCfg(WithoutReadback(shadow, n));
      if !ok { return; }
      ok := bus.Access();
      var live: word := *;
      v := look(k, if ShowsLive(regs.cfg, n) then live else regs.value[n]);
    }

    method ResetPort(n: Port) returns (ok: bool)
      requires Valid()
      modifies this`regs, bus
      ensures Valid() && bus.faults == old(bus.faults) + if ok then 0 else 1
      ensures ok ==> regs == WithPort(old(regs), n, 0, ALL_BITS, 0)
    {
      ok := Invert(n, 0);
      if !ok { return; }
      ok := Mask(n, ALL_BITS);
      if !ok { return; }
      ok := SetValue(n, 0);
    }

    method ResetPassthrough() returns (ok: bool)
      requires Valid()
      modifies this, bus
      ensures Valid() && (ok ==> regs == Passthrough() && shadow == {})
      ensures bus.faults == old(bus.faults) + if ok then 0 else 1
    {
      ok := WriteCfg({});
      if !ok { return; }
      for i := 0 to 5
        invariant Valid() && regs.cfg == {} && shadow == {} && bus.faults == old(bus.faults)
        invariant forall k :: 0 <= k < i ==> regs.invert[k] == 0 && regs.mask[k] == ALL_BITS && regs.value[k] == 0
      {
        ok := ResetPort(i);
        if !ok { return; }
      }
      assert regs.invert == Passthrough().invert;
      assert regs.mask == Passthrough().mask && regs.value == Passthrough().value;
      ok := true;
    }

    /**
      `self_test`: writes and reads back every register, then restores what was read before, also
      when it stops at the first mismatch. If no access throws, the registers end as they were read,
      so with true readings they end as they began, and the result is 0 exactly if every readback
      returned what was written.
    */
    method SelfTest(pattern: nat -> word, look: Reading, cfgRead: Cfg) returns (ok: bool, rc: int)
      requires Valid()
      modifies this, bus
      ensures Valid() && bus.faults == old(bus.faults) + if ok then 0 else 1
      ensures ok ==> shadow == cfgRead && 0 <= rc <= 3 && regs == AsRead(old(regs), look, cfgRead)
      ensures ok ==> (rc == 0 <==> forall j :: 0 <= j < 15 ==> look(15 + j, pattern(j)) == pattern(j))
    {
      rc := 0;
      ok := bus.Access();
      if !ok { return; }
      ok := WriteCfg(cfgRead);
      if !ok { return; }
      var invert, mask, force;
      ok, invert, mask, force := SaveAll(look);
      if !ok { return; }
      ok, rc := WriteAndCompare(pattern, look);
      if !ok { return; }
      ok := RestoreAll(invert, mask, force);
      if !ok { return; }
      ok := WriteCfg(cfgRead);
    }

    method SaveAll(look: Reading) returns (ok: bool, invert: seq<word>, mask: seq<word>, force: seq<word>)
      requires Valid()
      modifies this, bus
      ensures Valid() && bus.faults == old(bus.faults) + if ok then 0 else 1
      ensures ok ==> |invert| == |mask| == |force| == 5
      ensures ok ==> Registers(regs.cfg, invert, mask, force) == AsRead(old(regs), look, regs.cfg)
    {
      invert, mask, force := [], [], [];
      for i := 0 to 5
        invariant Valid() && regs == old(regs).(cfg := regs.cfg) && bus.faults == old(bus.faults)
        invariant |invert| == |mask| == |force| == i
        invariant forall k :: 0 <= k < i ==> invert[k] == look(3 * k, regs.invert[k])
        invariant forall k :: 0 <= k < i ==> mask[k] == look(3 * k + 1, regs.mask[k])
        invariant forall k :: 0 <= k < i ==> force[k] == look(3 * k + 2, regs.value[k])
      {
        ok := bus.Access();
        if !ok { return; }
        invert := invert + [look(3 * i, regs.invert[i])];
        ok := bus.Access();
        if !ok { return; }
        mask := mask + [look(3 * i + 1, regs.mask[i])];
        var v;
        ok, v := GetForce(i, look, 3 * i + 2);
        if !ok { return; }
        force := force + [v];
      }
      ok := true;
    }

    /** One port: 0, or the number of the readback that differs. */
    method ComparePort(i: Port, pattern: nat -> word, look: Reading) returns (ok: bool, rc: int)
      requires Valid()
      modifies this, bus
      ensures Valid() && bus.faults == old(bus.faults) + if ok then 0 else 1
      ensures ok ==> 0 <= rc <= 3
      ensures ok ==> (rc == 0 <==> forall j :: 3 * i <= j < 3 * i + 3 ==> look(15 + j, pattern(j)) == pattern(j))
    {
      rc := 0;
      ok := Invert(i, pattern(3 * i));
      if !ok { return; }
      ok := bus.Access();
      if !ok { return; }
      if look(15 + 3 * i, regs.invert[i]) != pattern(3 * i) { return true, 1; }
      ok := Mask(i, pattern(3 * i + 1));
      if !ok { return; }
      ok := bus.Access();
      if !ok { return; }
      if look(15 + (3 * i + 1), regs.mask[i]) != pattern(3 * i + 1) { return true, 2; }
      ok := Force(i, pattern(3 * i + 2));
      if !ok { return; }
      var v;
      ok, v := GetForce(i, look, 15 + (3 * i + 2));
      if !ok { return; }
      if v != pattern(3 * i + 2) { return true, 3; }
    }

    method WriteAndCompare(pattern: nat -> word, look: Reading) returns (ok: bool, rc: int)
      requires Valid()
      modifies this, bus
      ensures Valid() && bus.faults == old(bus.faults) + if ok then 0 else 1
      ensures ok ==> 0 <= rc <= 3 && (rc == 0 <==> forall j :: 0 <= j < 15 ==> look(15 + j, pattern(j)) == pattern(j))
    {
      for i := 0 to 5
        invariant Valid() && bus.faults == old(bus.faults)
        invariant forall j :: 0 <= j < 3 * i ==> look(15 + j, pattern(j)) == pattern(j)
      {
        ok, rc := ComparePort(i, pattern, look);
        if !ok || rc != 0 { return; }
      }
      return true, 0;
    }

    method RestorePort(n: Port, invert: word, mask: word, force: word) returns (ok: bool)
      requires Valid()
      modifies this`regs, bus
      ensures Valid() && bus.faults == old(bus.faults) + if ok then 0 else 1
      ensures ok ==> regs == WithPort(old(regs), n, invert, mask, force)
    {
      ok := Invert(n, invert);
      if !ok { return; }
      ok := Mask(n, mask);
      if !ok { return; }
      ok := SetValue(n, force);
    }

    method RestoreAll(invert: seq<word>, mask: seq<word>, force: seq<word>) returns (ok: bool)
      requires Valid() && |invert| == |mask| == |force| == 5
      modifies this`regs, bus
      ensures Valid() && bus.faults == old(bus.faults) + if ok then 0 else 1
      ensures ok ==> regs == old(regs).(invert := invert, mask := mask, value := force)
    {
      for i := 0 to 5
        invariant Valid() && regs.cfg == old(regs).cfg && bus.faults == old(bus.faults)
        invariant forall k :: 0 <= k < i ==> regs.invert[k] == invert[k] && regs.mask[k] == mask[k]
        invariant forall k :: 0 <= k < i ==> regs.value[k] == force[k]
      {
        ok := RestorePort(i, invert[i], mask[i], force[i]);
        if !ok { return; }
      }
      assert regs.invert == invert && regs.mask == mask && regs.value == force;
      ok := true;
    }
  }

  /** The registers as the first fifteen readings show them. */
  ghost function AsRead(regs: Registers, look: Reading, cfgRead: Cfg): Registers
    requires regs.Shaped()
  {
    Registers(cfgRead,
              seq(5, i requires 0 <= i < 5 => look(3 * i, regs.invert[i])),
              seq(5, i requires 0 <= i < 5 => look(3 * i + 1, regs.mask[i])),
              seq(5, i requires 0 <= i < 5 => look(3 * i + 2, regs.value[i])))
  }

  /** True readings show the registers as they are. */
  lemma TrueReadings(regs: Registers, look: Reading)
    requires regs.Shaped() && forall k, w :: 0 <= k < 15 ==> look(k, w) == w
    ensures AsRead(regs, look, regs.cfg) == regs
  {
    var r := AsRead(regs, look, regs.cfg);
    forall i | 0 <= i < 5 ensures r.invert[i] == regs.invert[i] {
      assert look(3 * i, regs.invert[i]) == regs.invert[i];
    }
    forall i | 0 <= i < 5 ensures r.mask[i] == regs.mask[i] {
      assert look(3 * i + 1, regs.mask[i]) == regs.mask[i];
    }
    forall i | 0 <= i < 5 ensures r.value[i] == regs.value[i] {
      assert look(3 * i + 2, regs.value[i]) == regs.value[i];
    }
    assert r.invert == regs.invert && r.mask == regs.mask && r.value == regs.value;
  }
}
