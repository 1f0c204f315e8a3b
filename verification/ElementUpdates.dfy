/**
  What an element is built to do is what its three words say: every constructor and every change of
  the value puts the update that was asked for into the control word.
*/
module ElementUpdates {
  import opened Bits
  import opened Wrappers
  import opened Elements

  /** The element that the hardware, or a reader of a file, makes of the three words. */
  function AsSent(e: El): Result<El> { FromRaw(e.control, e.count, e.value) }

  /** What r does to every output is what v asks for. */
  ghost predicate Acts(r: Result<El>, v: Value)
  {
    r.Ok? && forall w :: r.value.Updated(w) == ApplyValueKind(v.kind, v.v, w)
  }

  /** A regular element whose cache and whose words both say v. */
  ghost predicate Carries(r: Result<El>, count: u32, v: Value)
  {
    && Acts(r, v) && r.value.IsRegular() && r.value.count == count && r.value.value == v.v
    && Acts(AsSent(r.value), v) && AsSent(r.value).value.Same(r.value)
  }

  /** A final element whose cache and whose words both say v. */
  ghost predicate Ends(r: Result<El>, v: Value)
  {
    && Acts(r, v) && r.value.IsFinal() && r.value.value == v.v
    && Acts(AsSent(r.value), v) && AsSent(r.value).value.IsFinal()
  }

  // ----- mode bits

  function AsRegular(kind: ValueKind): ValueKind { if kind.Plain? then BitLoad else kind }

  lemma ModeBitsFit(kind: ValueKind, m: word)
    requires m == ModeBits(kind)
    ensures ModeOf(m) == m
  {
  }

  lemma ModeBitsDecode(kind: ValueKind, m: word, y: word)
    requires m == ModeBits(kind) && !kind.TriggerValue? && ModeOf(y) == m
    ensures KindFromMode(y) == Ok(AsRegular(kind))
  {
  }

  lemma ModeJoined(y: word, m: word, y': word)
    requires ModeOf(y) == 0 && ModeOf(m) == m && y' == y | m
    ensures ModeOf(y') == m
  {
  }

  lemma TypeJoined(y: word, m: word, y': word)
    requires ModeOf(m) == m && y' == y | m
    ensures TypeOf(y') == TypeOf(y)
  {
  }

  lemma StrobeJoined(y: word, m: word, y': word)
    requires ModeOf(m) == m && y' == y | m
    ensures NoStrobe(y') == NoStrobe(y)
  {
  }

  /** Joining the mode bits of a kind to a control word without mode bits sets that mode ... */
  lemma JoinKind(y: word, kind: ValueKind, m: word, y': word)
    requires m == ModeBits(kind) && !kind.TriggerValue? && ModeOf(y) == 0 && y' == y | m
    ensures KindFromMode(y') == Ok(AsRegular(kind))
  {
    ModeBitsFit(kind, m);
    ModeJoined(y, m, y');
    ModeBitsDecode(kind, m, y');
  }

  /** ... and nothing else. */
  lemma JoinType(y: word, kind: ValueKind, m: word, y': word)
    requires m == ModeBits(kind) && y' == y | m
    ensures TypeOf(y') == TypeOf(y)
  {
    ModeBitsFit(kind, m);
    TypeJoined(y, m, y');
  }

  lemma JoinStrobe(y: word, kind: ValueKind, m: word, y': word)
    requires m == ModeBits(kind) && y' == y | m
    ensures NoStrobe(y') == NoStrobe(y)
  {
    ModeBitsFit(kind, m);
    StrobeJoined(y, m, y');
  }

  lemma ValueMode(v: Value, m: word)
    requires !v.kind.TriggerValue? && m == v.Mode()
    ensures m == ModeBits(v.kind)
  {
  }

  lemma ValueRegularMode(v: Value, m: word)
    requires !v.kind.TriggerValue? && m == v.RegularMode()
    ensures m == ModeBits(v.kind)
  {
  }

  lemma SameUpdate(kind: ValueKind, x: word, w: word)
    ensures ApplyValueKind(AsRegular(kind), x, w) == ApplyValueKind(kind, x, w)
  {
  }

  lemma KindActs(e: El, v: Value)
    requires e.valueKind == AsRegular(v.kind) && e.value == v.v
    ensures Acts(Ok(e), v)
  {
    forall w ensures e.Updated(w) == ApplyValueKind(v.kind, v.v, w) { SameUpdate(v.kind, v.v, w); }
  }

  // ----- regular elements

  lemma RegularSent(y: word, count: u32, x: word, kind: ValueKind) returns (e: El)
    requires TypeOf(y).Regular? && KindFromMode(y) == Ok(kind)
    ensures FromRaw(y, count, x) == Ok(e)
    ensures e.control == y && e.count == count && e.value == x && e.valueKind == kind
  {
    e := FromRaw(y, count, x).value;
  }

  lemma RegularSynced(y: word, count: u32, x: word, ck: CounterKind, vk: ValueKind, kind: ValueKind) returns (e: El)
    requires TypeOf(y).Regular? && KindFromMode(y) == Ok(kind)
    ensures El(y, count, x, ck, vk).Sync() == Ok(e)
    ensures e.control == y && e.count == count && e.value == x && e.valueKind == kind
  {
    e := El(y, count, x, ck, vk).Sync().value;
  }

  lemma SyncCarries(y: word, count: u32, v: Value, ck: CounterKind, vk: ValueKind, r: Result<El>)
    requires TypeOf(y).Regular? && KindFromMode(y) == Ok(AsRegular(v.kind)) && r == El(y, count, v.v, ck, vk).Sync()
    ensures Carries(r, count, v) && r.value.control == y
  {
    var e := RegularSynced(y, count, v.v, ck, vk, AsRegular(v.kind));
    var sent := RegularSent(y, count, v.v, AsRegular(v.kind));
    KindActs(e, v);
    KindActs(sent, v);
  }

  lemma JoinCarries(y: word, m: word, count: u32, v: Value, ck: CounterKind, vk: ValueKind, y': word, r: Result<El>)
    requires TypeOf(y).Regular? && ModeOf(y) == 0 && m == ModeBits(v.kind) && !v.kind.TriggerValue? && y' == y | m
    requires r == El(y', count, v.v, ck, vk).Sync()
    ensures Carries(r, count, v) && r.value.control == y' && NoStrobe(y') == NoStrobe(y)
  {
    JoinKind(y, v.kind, m, y');
    JoinType(y, v.kind, m, y');
    JoinStrobe(y, v.kind, m, y');
    SyncCarries(y', count, v, ck, vk, r);
  }

  lemma CounterBits(c: Counter, y: word)
    requires y == c.ControlBits()
    ensures ModeOf(y) == 0 && TypeOf(y).Regular? && NoStrobe(y) == c.kind.CNoStrobe?
  {
  }

  lemma MadeIsSynced(y: word, count: u32, x: word, ck: CounterKind, vk: ValueKind)
    requires TypeOf(y).Regular?
    ensures Make(y, count, x, ck, vk) == El(y, count, x, ck, vk).Sync()
  {
  }

  lemma RegularIs(c: Counter, v: Value, y: word, m: word, y': word)
    requires y == c.ControlBits() && m == v.RegularMode() && y' == y | m && TypeOf(y').Regular?
    ensures RegularEl(c, v) == El(y', c.count, v.v, c.kind, v.RegularKind()).Sync()
  {
    MadeIsSynced(y', c.count, v.v, c.kind, v.RegularKind());
  }

  /** A regular element does what its value asks for, by its cache and by its words, unless the value is a trigger. */
  lemma RegularActs(c: Counter, v: Value)
    requires !v.kind.TriggerValue?
    ensures var r := RegularEl(c, v); Carries(r, c.count, v) && NoStrobe(r.value.control) == c.kind.CNoStrobe?
  {
    var y, m := c.ControlBits(), v.RegularMode();
    var y' := y | m;
    ValueRegularMode(v, m);
    CounterBits(c, y);
    JoinType(y, v.kind, m, y');
    RegularIs(c, v, y, m, y');
    JoinCarries(y, m, c.count, v, c.kind, v.RegularKind(), y', RegularEl(c, v));
  }

  lemma Cleared(y: word, z: word)
    requires TypeOf(y).Regular? && z == ClearMode(y)
    ensures ModeOf(z) == 0 && TypeOf(z).Regular? && NoStrobe(z) == NoStrobe(y)
  {
  }

  lemma WithValueIs(e: El, v: Value, y': word)
    requires e.IsRegular() && y' == ClearMode(e.control) | v.RegularMode()
    ensures e.WithRegularValue(v) == El(y', e.count, v.v, e.counterKind, v.RegularKind()).Sync()
  {
  }

  lemma WithValueCarries(e: El, v: Value, y: word, z: word, m: word, y': word, r: Result<El>)
    requires TypeOf(y).Regular? && y == e.control && z == ClearMode(y) && m == v.RegularMode() && y' == z | m
    requires !v.kind.TriggerValue? && r == El(y', e.count, v.v, e.counterKind, v.RegularKind()).Sync()
    ensures Carries(r, e.count, v) && NoStrobe(r.value.control) == NoStrobe(y)
  {
    ValueRegularMode(v, m);
    Cleared(y, z);
    JoinCarries(z, m, e.count, v, e.counterKind, v.RegularKind(), y', r);
  }

  /** Replacing the value of a regular element keeps its count and its strobe. */
  lemma WithRegularValueActs(e: El, v: Value, r: Result<El>)
    requires e.IsRegular() && !v.kind.TriggerValue? && r == e.WithRegularValue(v)
    ensures Carries(r, e.count, v) && NoStrobe(r.value.control) == NoStrobe(e.control)
  {
    var y := e.control;
    var z, m := ClearMode(y), v.RegularMode();
    WithValueIs(e, v, z | m);
    WithValueCarries(e, v, y, z, m, z | m, r);
  }

  // ----- final elements

  lemma FinalSent(y: word, count: u32, x: word, kind: ValueKind) returns (e: El)
    requires TypeOf(y).Final? && KindFromMode(y) == Ok(kind)
    ensures FromRaw(y, count, x) == Ok(e)
    ensures e.control == y && e.value == x && e.valueKind == kind
  {
    e := FromRaw(y, count, x).value;
  }

  lemma SyncEnds(y: word, count: u32, v: Value, ck: CounterKind, r: Result<El>)
    requires TypeOf(y).Final? && KindFromMode(y) == Ok(AsRegular(v.kind)) && r == El(y, count, v.v, ck, v.kind).Sync()
    ensures Ends(r, v)
  {
    var sent := FinalSent(y, count, v.v, AsRegular(v.kind));
    KindActs(sent, v);
  }

  lemma JoinEnds(y: word, m: word, count: u32, v: Value, ck: CounterKind, y': word, r: Result<El>)
    requires TypeOf(y).Final? && ModeOf(y) == 0 && m == ModeBits(v.kind) && !v.kind.TriggerValue? && y' == y | m
    requires r == El(y', count, v.v, ck, v.kind).Sync()
    ensures Ends(r, v)
  {
    JoinKind(y, v.kind, m, y');
    JoinType(y, v.kind, m, y');
    SyncEnds(y', count, v, ck, r);
  }

  lemma TerminateBits(y: word)
    requires y == TERMINATE
    ensures TypeOf(y).Final? && ModeOf(y) == 0
  {
  }

  lemma FinalIs(v: Value, y: word, m: word, y': word)
    requires y == TERMINATE && m == v.Mode() && y' == y | m && TypeOf(y').Final?
    ensures FinalEl(v) == El(y', 1, v.v, CPlain, v.kind).Sync()
  {
  }

  /** A final element ends with what its value asks for, by its cache and by its words, unless it is a trigger. */
  lemma FinalActs(v: Value)
    requires !v.kind.TriggerValue?
    ensures Ends(FinalEl(v), v)
  {
    var y, m := TERMINATE, v.Mode();
    var y' := y | m;
    ValueMode(v, m);
    TerminateBits(y);
    JoinType(y, v.kind, m, y');
    FinalIs(v, y, m, y');
    JoinEnds(y, m, 1, v, CPlain, y', FinalEl(v));
  }

  lemma SetOtherIs(e: El, v: Value, y': word)
    requires !e.IsRegular() && !e.IsReplay() && y' == ClearMode(e.control) | v.Mode()
    ensures e.SetValue(v) == El(y', e.count, v.v, e.counterKind, v.kind).Sync()
  {
  }

  lemma ClearedType(y: word, z: word)
    requires z == ClearMode(y) && !TypeOf(y).Regular? && (TypeOf(z).Regular? || TypeOf(z).Final?)
    ensures ModeOf(z) == 0 && !TypeOf(y).Replay?
  {
  }

  lemma SetOtherSynced(e: El, v: Value, y: word, z: word, m: word, y': word, r: Result<El>)
    requires !v.kind.TriggerValue? && !TypeOf(y).Regular? && z == ClearMode(y) && m == v.Mode() && y' == z | m
    requires r == El(y', e.count, v.v, e.counterKind, v.kind).Sync()
    ensures TypeOf(z).Regular? ==> Carries(r, e.count, v)
    ensures TypeOf(z).Final? ==> Ends(r, v)
  {
    ValueMode(v, m);
    if TypeOf(z).Regular? {
      ClearedType(y, z);
      JoinCarries(z, m, e.count, v, e.counterKind, v.kind, y', r);
    } else if TypeOf(z).Final? {
      ClearedType(y, z);
      JoinEnds(z, m, e.count, v, e.counterKind, y', r);
    }
  }

  lemma SetOtherActs(e: El, v: Value, y: word, z: word, r: Result<El>)
    requires !v.kind.TriggerValue? && y == e.control && !TypeOf(y).Regular? && z == ClearMode(y) && r == e.SetValue(v)
    ensures TypeOf(z).Regular? ==> Carries(r, e.count, v)
    ensures TypeOf(z).Final? ==> Ends(r, v)
  {
    if TypeOf(z).Regular? || TypeOf(z).Final? {
      var m := v.Mode();
      ClearedType(y, z);
      SetOtherIs(e, v, z | m);
      SetOtherSynced(e, v, y, z, m, z | m, r);
    }
  }

  /**
    `set_value` puts the update into the words of the element: into a regular one, and into any
    other that is regular or final once its mode and trigger bits are cleared.
  */
  lemma SetValueActs(e: El, v: Value, z: word, r: Result<El>)
    requires !v.kind.TriggerValue? && z == ClearMode(e.control) && r == e.SetValue(v)
    ensures e.IsRegular() || TypeOf(z).Regular? ==> Carries(r, e.count, v)
    ensures !e.IsRegular() && TypeOf(z).Final? ==> Ends(r, v)
  {
    if e.IsRegular() {
      WithRegularValueActs(e, v, r);
    } else {
      SetOtherActs(e, v, e.control, z, r);
    }
  }

  /** A final element stays one when its mode and trigger bits are cleared. */
  lemma ClearedFinal(y: word)
    requires TypeOf(y).Final?
    ensures TypeOf(ClearMode(y)).Final?
  {
  }

  // ----- counters

  lemma StrobeSet(y: word, b: word, y': word)
    requires TypeOf(y).Regular? && (b == 0 || b == NOSTROBE) && y' == (y & !NOSTROBE) | b
    ensures TypeOf(y').Regular? && ModeOf(y') == ModeOf(y) && NoStrobe(y') == (b == NOSTROBE)
  {
  }

  lemma SameMode(y: word, y': word)
    requires ModeOf(y') == ModeOf(y)
    ensures KindFromMode(y') == KindFromMode(y)
  {
  }

  lemma CounterBit(c: Counter, b: word)
    requires b == c.ControlBits()
    ensures (b == 0 || b == NOSTROBE) && (b == NOSTROBE) == c.kind.CNoStrobe?
  {
  }

  lemma WithCounterIs(e: El, c: Counter, y': word)
    requires y' == (e.control & !NOSTROBE) | c.ControlBits()
    ensures e.WithCounter(c) == El(y', c.count, e.value, c.kind, e.valueKind).Sync()
  {
  }

  lemma CounterCarried(e: El, c: Counter, y: word, b: word, y': word, r: Result<El>)
    requires TypeOf(y).Regular? && KindFromMode(y) == Ok(e.valueKind) && b == c.ControlBits()
    requires y' == (y & !NOSTROBE) | b && r == El(y', c.count, e.value, c.kind, e.valueKind).Sync()
    ensures r.Ok? && r.value.IsRegular() && r.value.count == c.count && r.value.value == e.value
    ensures r.value.valueKind == e.valueKind && NoStrobe(r.value.control) == c.kind.CNoStrobe?
  {
    CounterBit(c, b);
    StrobeSet(y, b, y');
    SameMode(y, y');
    var made := RegularSynced(y', c.count, e.value, c.kind, e.valueKind, e.valueKind);
  }

  /** Replacing the counter of a regular element keeps what it does, and sets the strobe as the counter says. */
  lemma WithCounterActs(e: El, c: Counter, r: Result<El>)
    requires Coherent(e) && e.IsRegular() && r == e.WithCounter(c)
    ensures r.Ok? && r.value.IsRegular() && r.value.count == c.count && r.value.value == e.value
    ensures r.value.valueKind == e.valueKind && NoStrobe(r.value.control) == c.kind.CNoStrobe?
  {
    var y, b := e.control, c.ControlBits();
    WithCounterIs(e, c, (y & !NOSTROBE) | b);
    CounterCarried(e, c, y, b, (y & !NOSTROBE) | b, r);
  }
}
