/** Encoded elements of a pulse sequence: control word, run-length count and value. */
module Elements {
  import opened Bits
  import opened Wrappers

  type u32 = x: int | 0 <= x < U32_RANGE

  const U32_MAX: u32 := 0xFFFF_FFFF

  function WordOf(n: u32): word { n as bv32 }
  function NumberOf(w: word): nat { w as nat }

  lemma WordRoundTrip(w: word)
    ensures NumberOf(w) < U32_RANGE && WordOf(NumberOf(w)) == w
  {
  }

  const TRIGGERBITS: word := 0x3
  const TRIGGER: word := 0x1
  const TRIGGERFINAL: word := 0x2
  const TERMINATE: word := 0x4
  const NOSTROBE: word := 0x8
  const MODEBITS: word := 0xF0
  const STORE: word := 0x300
  const REPLAY: word := 0x8100
  const RETRIG: word := 0x1_0000
  const PRNG: word := 0x2_0000
  const POSITIONS: word := 8
  const POSITIONS_MASK: word := 0x1C00
  const DEFAULT_FINAL_VALUE: word := 0xFFFF_FFFF

  datatype ElType = Regular | Trigger | Replay | Final | Retrig | Prng
  datatype CounterKind = CPlain | CStrobe | CNoStrobe
  datatype ValueKind =
    | Plain | BitLoad | BitSet | BitClear | BitFlip | BitNot | BitAnd | BitOr | BitXor | BitXnor | BitSll | BitSrl
    | TriggerValue

  function Sll(x: word, n: word): word { if n < 32 then x << n else 0 }
  function Srl(x: word, n: word): word { if n < 32 then x >> n else 0 }

  function ApplyValueKind(kind: ValueKind, operand: word, previous: word): word
  {
    match kind
    case Plain | BitLoad | TriggerValue => operand
    case BitSet => previous | operand
    case BitClear => previous & !operand
    case BitFlip => previous ^ operand
    case BitNot => !previous
    case BitAnd => operand & previous
    case BitOr => operand | previous
    case BitXor => operand ^ previous
    case BitXnor => !(operand ^ previous)
    case BitSll => Sll(previous, operand)
    case BitSrl => Srl(previous, operand)
  }

  // ----- decoding the control word

  function TypeOf(control: word): ElType
  {
    if control & TRIGGERBITS == TRIGGER || control & TRIGGERBITS == TRIGGER | TRIGGERFINAL then Trigger
    else if control & REPLAY == REPLAY then Replay
    else if control & RETRIG == RETRIG then Retrig
    else if control & PRNG == PRNG then Prng
    else if control & TERMINATE == TERMINATE then Final
    else Regular
  }

  function ModeOf(control: word): word { control & MODEBITS }
  function ClearMode(control: word): word { control & !(MODEBITS | TRIGGERBITS) }
  predicate NoStrobe(control: word) { control & NOSTROBE == NOSTROBE }
  predicate Stored(control: word) { control & STORE == STORE }

  /** The control word of an element kept in slot i. */
  function InSlot(control: word, i: word): word { control | STORE | (i << 10) }

  function StoreSlot(control: word): word
    requires Stored(control)
  {
    (control & POSITIONS_MASK) >> 10
  }

  /** The table of update modes; the other five bit patterns are rejected. */
  function KindFromMode(control: word): Result<ValueKind>
  {
    var mode := ModeOf(control);
    if mode == 0x00 then Ok(BitLoad)
    else if mode == 0x10 then Ok(BitSet)
    else if mode == 0x20 then Ok(BitClear)
    else if mode == 0x30 then Ok(BitFlip)
    else if mode == 0x40 then Ok(BitNot)
    else if mode == 0x50 then Ok(BitAnd)
    else if mode == 0x60 then Ok(BitOr)
    else if mode == 0x70 then Ok(BitXor)
    else if mode == 0x80 then Ok(BitXnor)
    else if mode == 0x90 then Ok(BitSll)
    else if mode == 0xA0 then Ok(BitSrl)
    else Err
  }

  function ModeBits(kind: ValueKind): word
  {
    match kind
    case Plain | BitLoad | TriggerValue => 0x00
    case BitSet => 0x10
    case BitClear => 0x20
    case BitFlip => 0x30
    case BitNot => 0x40
    case BitAnd => 0x50
    case BitOr => 0x60
    case BitXor => 0x70
    case BitXnor => 0x80
    case BitSll => 0x90
    case BitSrl => 0xA0
  }

  // ----- the arguments elements are built from

  /** A counter wrapper; only the no-strobe kind contributes a control bit. */
  datatype Counter = Counter(kind: CounterKind, count: u32) {
    function ControlBits(): word { if kind.CNoStrobe? then NOSTROBE else 0 }
  }

  /** A value wrapper; a trigger condition also says whether it is the last one. */
  datatype Value = Value(kind: ValueKind, v: word, lastTrigger: bool) {
    function Mode(): word
    {
      if kind.TriggerValue? then TRIGGER | (if lastTrigger then TRIGGERFINAL else 0) else ModeBits(kind)
    }

    function RegularKind(): ValueKind { if kind.Plain? then BitLoad else kind }
    function RegularMode(): word { if RegularKind().BitLoad? then 0 else Mode() }
  }

  // ----- the cached-state invariant

  /** The cached kinds of a regular element are those its control word encodes. */
  ghost predicate Coherent(e: El)
  {
    e.IsRegular() ==>
      && KindFromMode(e.control) == Ok(e.valueKind)
      && (e.counterKind.CNoStrobe? <==> NoStrobe(e.control))
  }

  ghost predicate CoherentResult(r: Result<El>) { r.Ok? ==> Coherent(r.value) }

  datatype El = El(control: word, count: u32, value: word, counterKind: CounterKind, valueKind: ValueKind)
  {
    function Type(): ElType { TypeOf(control) }
    predicate IsRegular() { Type().Regular? }
    predicate IsTrigger() { Type().Trigger? }
    predicate IsFinal() { Type().Final? }
    predicate IsReplay() { Type().Replay? }

    /** The operator the hardware and the host compare elements with: cached fields are ignored. */
    predicate Same(that: El)
    {
      control == that.control && count == that.count && value == that.value
    }

    /** The output after this element when the previous output was `previous`. */
    function Updated(previous: word): word { ApplyValueKind(valueKind, value, previous) }

    /** `sync_cached_state_from_control`. */
    function Sync(): (r: Result<El>)
      ensures CoherentResult(r)
      ensures r.Ok? ==> r.value.Same(this) && (!IsRegular() ==> r.value == this)
    {
      if !IsRegular() then Ok(this)
      else
        var kind := KindFromMode(control);
        if kind.Err? then Err
        else
          var ck := if NoStrobe(control) then CNoStrobe else if counterKind.CNoStrobe? then CPlain else counterKind;
          Ok(this.(counterKind := ck, valueKind := kind.value))
    }

    function StoredIn(i: word): (r: Result<El>)
      ensures Coherent(this) ==> CoherentResult(r)
      ensures r.Ok? <==> i < POSITIONS
      ensures r.Ok? ==> Stored(r.value.control) && r.value == this.(control := r.value.control)
    {
      if i >= POSITIONS then Err
      else
        StoringKeepsFields(control, i);
        Ok(this.(control := InSlot(control, i)))
    }

    function WithControl(y: word): (r: Result<El>)
      ensures CoherentResult(r)
      ensures r.Ok? ==> r.value.Same(this.(control := y))
    {
      if TypeOf(y).Replay? && value > POSITIONS then Err else this.(control := y).Sync()
    }

    function WithCount(c: u32): (r: El)
      ensures Coherent(this) ==> Coherent(r)
      ensures r.count == c && r.control == control && r.value == value && r.valueKind == valueKind
    {
      this.(count := c)
    }

    function WithCounter(c: Counter): (r: Result<El>)
      ensures CoherentResult(r)
      ensures r.Ok? ==> r.value.count == c.count && r.value.value == value
    {
      this.(count := c.count, counterKind := c.kind, control := (control & !NOSTROBE) | c.ControlBits()).Sync()
    }

    function WithRegularValue(v: Value): (r: Result<El>)
      ensures CoherentResult(r) && (r.Ok? ==> IsRegular())
      ensures r.Ok? ==> r.value.count == count && r.value.value == v.v
    {
      if !IsRegular() then Err
      else El(ClearMode(control) | v.RegularMode(), count, v.v, counterKind, v.RegularKind()).Sync()
    }

    function AsBitLoadAfter(previous: word): (r: Result<El>)
      ensures Coherent(this) ==> CoherentResult(r)
      ensures if IsRegular() then Loads(r, count, Updated(previous)) else r == Ok(this)
    {
      if !IsRegular() then Ok(this)
      else
        LoadedElement(this, Updated(previous));
        WithRegularValue(Value(BitLoad, Updated(previous), false))
    }

    function SetValue(v: Value): (r: Result<El>)
      ensures CoherentResult(r)
      ensures r.Ok? ==> r.value.count == count && r.value.value == v.v
    {
      if IsRegular() then WithRegularValue(v)
      else if IsReplay() && v.v > POSITIONS then Err
      else
        El(ClearMode(control) | v.Mode(), count, v.v, counterKind, v.kind).Sync()
    }
  }

  // ----- constructors

  /** The private constructor all others delegate to. */
  function Make(control: word, count: u32, value: word, ck: CounterKind, vk: ValueKind): (r: Result<El>)
    ensures CoherentResult(r)
    ensures r.Ok? ==> r.value.Same(El(control, count, value, ck, vk))
  {
    if TypeOf(control).Replay? && value > POSITIONS then Err
    else El(control, count, value, ck, vk).Sync()
  }

  function Load(count: u32, value: word): El { El(0, count, value, CPlain, BitLoad) }

  function RegularEl(c: Counter, v: Value): Result<El>
  {
    Make(c.ControlBits() | v.RegularMode(), c.count, v.v, c.kind, v.RegularKind())
  }

  function FinalEl(v: Value): Result<El>
  {
    Make(TERMINATE | v.Mode(), 1, v.v, CPlain, v.kind)
  }

  /** The value word of a trigger condition. */
  function Condition(pattern: bv8, mask: bv8): word { ((mask as word) << 8) + pattern as word }

  function TriggerEl(pattern: bv8, mask: bv8, last: bool): El
  {
    El(TRIGGER | (if last then TRIGGERFINAL else 0), 0, Condition(pattern, mask), CPlain, TriggerValue)
  }

  function ReplayEl(repetitions: u32, length: word): Result<El> { Make(REPLAY, repetitions, length, CPlain, Plain) }
  function RetrigEl(value: word): El { El(RETRIG, 1, value, CPlain, Plain) }
  function PrngEl(count: u32): El { El(PRNG, count, 0, CPlain, Plain) }

  /** Rebuilds an element from the three words of a file or of the hardware. */
  function FromRaw(control: word, count: u32, value: word): (r: Result<El>)
    ensures CoherentResult(r)
    ensures r.Ok? ==> r.value.control == control
    ensures r.Ok? && TypeOf(control).Regular? ==> r.value.count == count && r.value.value == value
  {
    match TypeOf(control)
    case Trigger => Make(control, 0, value, CPlain, TriggerValue)
    case Replay => Make(control, count, value, CPlain, Plain)
    case Retrig => Make(control, 1, value, CPlain, Plain)
    case Prng => Make(control, count, 0, CPlain, Plain)
    case Final =>
      var kind := KindFromMode(control);
      if kind.Err? then Err else Make(control, 1, value, CPlain, kind.value)
    case Regular =>
      var kind := KindFromMode(control);
      if kind.Err? then Err
      else Make(control, count, value, if NoStrobe(control) then CNoStrobe else CPlain, kind.value)
  }

  lemma StoringKeepsFields(y: word, i: word)
    requires i < POSITIONS
    ensures var y' := InSlot(y, i);
      && (TypeOf(y').Regular? ==> TypeOf(y).Regular?)
      && KindFromMode(y') == KindFromMode(y) && NoStrobe(y') == NoStrobe(y) && Stored(y')
      && (y & POSITIONS_MASK == 0 ==> StoreSlot(y') == i)
  {
  }

  /** So elements that compare equal act equally, although comparison ignores the cache. */
  lemma SameElementsActAlike(x: El, y: El, previous: word)
    requires Coherent(x) && Coherent(y) && x.IsRegular() && x.Same(y)
    ensures y.IsRegular() && x.Updated(previous) == y.Updated(previous)
  {
  }

  /** Rebuilding a coherent regular element from its own words gives an equal one. */
  lemma RawRoundTrip(e: El)
    requires Coherent(e) && e.IsRegular()
    ensures var r := FromRaw(e.control, e.count, e.value); r.Ok? && r.value.Same(e) && r.value.valueKind == e.valueKind
  {
  }

  /** Clearing the mode bits of a regular control word leaves a plain load. */
  lemma BitLoadControl(y: word)
    requires TypeOf(y).Regular?
    ensures var y' := ClearMode(y) | 0;
      TypeOf(y').Regular? && KindFromMode(y') == Ok(BitLoad) && NoStrobe(y') == NoStrobe(y) && Stored(y') == Stored(y)
  {
  }

  lemma LoadedControl(e: El, w: word)
    requires e.IsRegular()
    ensures e.WithRegularValue(Value(BitLoad, w, false))
      == El(ClearMode(e.control) | 0, e.count, w, e.counterKind, BitLoad).Sync()
  {
  }

  lemma SyncLoad(y: word, count: u32, w: word, ck: CounterKind)
    requires TypeOf(y).Regular? && KindFromMode(y) == Ok(BitLoad)
    ensures var r := El(y, count, w, ck, BitLoad).Sync();
      r.Ok? && r.value.control == y && r.value.count == count && r.value.value == w && r.value.valueKind == BitLoad
  {
  }

  /** `r` is a regular element that holds `w` for `count` clocks. */
  ghost predicate Loads(r: Result<El>, count: u32, w: word)
  {
    && r.Ok? && TypeOf(r.value.control).Regular? && r.value.valueKind == BitLoad
    && r.value.count == count && r.value.value == w
  }

  lemma LoadedElement(e: El, w: word)
    requires e.IsRegular()
    ensures Loads(e.WithRegularValue(Value(BitLoad, w, false)), e.count, w)
  {
    LoadedControl(e, w);
    BitLoadControl(e.control);
    SyncLoad(ClearMode(e.control) | 0, e.count, w, e.counterKind);
  }

  /** Normalising an element after `previous` never fails and loads the output it produces. */
  lemma NormalisedElement(e: El, previous: word)
    requires e.IsRegular()
    ensures Loads(e.AsBitLoadAfter(previous), e.count, e.Updated(previous))
  {
    LoadedElement(e, e.Updated(previous));
  }

  // ----- sequences of elements

  predicate PlainLoad(e: El) { e == Load(e.count, e.value) }
  predicate AllPlain(s: seq<El>) { forall i :: 0 <= i < |s| ==> PlainLoad(s[i]) }

  /** Element by element equality. */
  ghost predicate SameSequence(s: seq<El>, t: seq<El>)
  {
    |s| == |t| && forall i :: 0 <= i < |s| ==> s[i].Same(t[i])
  }

  /** `validate_final_is_terminal`. */
  predicate FinalLast(s: seq<El>) { forall i :: 0 <= i < |s| - 1 ==> !s[i].IsFinal() }

  lemma SameFinalLast(s: seq<El>, t: seq<El>)
    requires SameSequence(s, t)
    ensures FinalLast(s) <==> FinalLast(t)
  {
    assert forall i :: 0 <= i < |s| ==> s[i].IsFinal() == t[i].IsFinal();
  }
}
