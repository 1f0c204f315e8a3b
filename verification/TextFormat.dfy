/** The text form of sequences: one record of blank-separated words per element. */
module TextFormat {
  import opened Bits
  import opened Wrappers
  import opened Elements
  import opened Chars
  import opened Literals

  // ----- tokens of regular elements

  function TokenControl(token: string): Option<word>
  {
    if token == "dn" then Some(NOSTROBE)
    else if token == "d" then Some(0x00)
    else if token == "s" then Some(0x10)
    else if token == "c" then Some(0x20)
    else if token == "x" then Some(0x30)
    else if token == "n" then Some(0x40)
    else if token == "a" then Some(0x50)
    else if token == "o" then Some(0x60)
    else if token == "xr" then Some(0x70)
    else if token == "xn" then Some(0x80)
    else if token == "sl" then Some(0x90)
    else if token == "sr" then Some(0xA0)
    else None
  }

  function ModeToken(kind: ValueKind): (t: string)
    ensures IsWord(t)
  {
    match kind
    case Plain | BitLoad | TriggerValue => "d"
    case BitSet => "s"
    case BitClear => "c"
    case BitFlip => "x"
    case BitNot => "n"
    case BitAnd => "a"
    case BitOr => "o"
    case BitXor => "xr"
    case BitXnor => "xn"
    case BitSll => "sl"
    case BitSrl => "sr"
  }

  /** `regular_token_from_control`: only loads may be without strobe. */
  function RegularToken(control: word): (r: Result<string>)
    ensures r.Ok? ==> IsWord(r.value)
  {
    var kind := KindFromMode(control);
    if kind.Err? || (NoStrobe(control) && !kind.value.BitLoad?) then Err
    else Ok(if NoStrobe(control) then "dn" else ModeToken(kind.value))
  }

  // ----- writing

  function Pattern(value: word): bv8 { (value & 0xFF) as bv8 }
  function Mask(value: word): bv8 { ((value >> 8) & 0xFF) as bv8 }
  function ByteOf(n: nat): bv8 requires n < 256 { n as bv8 }
  function ByteNumber(b: bv8): nat { b as nat }

  /** `sequence_record`, as the list of its words. */
  function Record(e: El): Result<seq<string>>
  {
    match e.Type()
    case Regular =>
      var token := RegularToken(e.control);
      if token.Err? then Err
      else
        var plain := [token.value, Dec(e.count), Hex(NumberOf(e.value))];
        Ok(if Stored(e.control) then ["store", Dec(NumberOf(StoreSlot(e.control)))] + plain else plain)
    case Trigger =>
      Ok([if e.control & TRIGGERFINAL == TRIGGERFINAL then "t" else "tn",
          Hex(ByteNumber(Pattern(e.value))), Hex(ByteNumber(Mask(e.value)))])
    case Final => if ModeOf(e.control) != 0 then Err else Ok(["final", Hex(NumberOf(e.value))])
    case Replay => Ok(["r", Dec(e.count), Hex(NumberOf(e.value))])
    case Retrig => Ok(["rt"])
    case Prng => Ok(["pr", Dec(e.count)])
  }

  // ----- parsing

  datatype Item = Element(e: El) | Force

  function ParseCount(s: string): (r: Result<nat>)
    ensures r.Ok? ==> r.value < U32_RANGE
  {
    ParseUnsigned(s, 0xFFFF_FFFF)
  }

  function ParseValue(s: string): Result<word>
  {
    var n := ParseCount(s);
    if n.Err? then Err else Ok(WordOf(n.value))
  }

  function ParseTrigger(s: string): Result<bv8>
  {
    var n := ParseUnsigned(s, 0xFF);
    if n.Err? then Err else Ok(ByteOf(n.value))
  }

  function ParseRegular(token: string, count: string, value: string): (r: Result<El>)
    ensures CoherentResult(r)
  {
    var c, v := ParseCount(count), ParseValue(value);
    if c.Err? || v.Err? || TokenControl(token).None? then Err else FromRaw(TokenControl(token).value, c.value, v.value)
  }

  function ParseStored(slot: string, token: string, count: string, value: string): Result<El>
  {
    var e, i := ParseRegular(token, count, value), ParseValue(slot);
    if e.Err? || i.Err? then Err else e.value.StoredIn(i.value)
  }

  function ParseReplay(count: string, length: string): Result<El>
  {
    var c, v := ParseCount(count), ParseValue(length);
    if c.Err? || v.Err? then Err else ReplayEl(c.value, v.value)
  }

  function ParsePrng(count: string): Result<El>
  {
    var c := ParseCount(count);
    if c.Err? then Err else Ok(PrngEl(c.value))
  }

  function ParseFinal(value: string): Result<El>
  {
    var v := ParseValue(value);
    if v.Err? then Err else FinalEl(Value(Plain, v.value, false))
  }

  function ParseCondition(pattern: string, mask: string, last: bool): Result<El>
  {
    var p, m := ParseTrigger(pattern), ParseTrigger(mask);
    if p.Err? || m.Err? then Err else Ok(TriggerEl(p.value, m.value, last))
  }

  function Wrapped(e: Result<El>): Result<Item> { if e.Err? then Err else Ok(Element(e.value)) }

  /** The words a record that starts with `token` has after it; none for an unknown token. */
  function Arity(token: string): Option<nat>
  {
    if TokenControl(token).Some? || token == "r" || token == "t" || token == "tn" then Some(2)
    else if token == "store" then Some(4)
    else if token == "pr" || token == "final" then Some(1)
    else if token == "rt" || token == "f" then Some(0)
    else None
  }

  /** One record, given its token and arguments. */
  function ParseRecord(token: string, args: seq<string>): Result<Item>
    requires Arity(token) == Some(|args|)
  {
    if token == "f" then Ok(Force)
    else
      var e := if TokenControl(token).Some? then ParseRegular(token, args[0], args[1])
        else if token == "store" then ParseStored(args[0], args[1], args[2], args[3])
        else if token == "r" then ParseReplay(args[0], args[1])
        else if token == "rt" then Ok(RetrigEl(DEFAULT_FINAL_VALUE))
        else if token == "pr" then ParsePrng(args[0])
        else if token == "final" then ParseFinal(args[0])
        else ParseCondition(args[0], args[1], token == "t");
      Wrapped(e)
  }

  // ----- which elements survive

  /** Control words that a token alone can say. */
  predicate Bare(y: word)
  {
    y & !(MODEBITS | NOSTROBE) == 0 && KindFromMode(y).Ok? && (NoStrobe(y) ==> KindFromMode(y) == Ok(BitLoad))
  }

  function WithoutSlot(y: word): word { y & !(STORE | POSITIONS_MASK) }

  /** The elements the text form can express. */
  predicate Expressible(e: El)
  {
    match e.Type()
    case Regular => Bare(WithoutSlot(e.control)) && (Stored(e.control) || WithoutSlot(e.control) == e.control)
    case Trigger => (e.control == TRIGGER || e.control == TRIGGER | TRIGGERFINAL) && e.count == 0 && e.value < 0x1_0000
    case Final => e.control == TERMINATE && e.count == 1
    case Replay => e.control == REPLAY && e.value <= POSITIONS
    case Retrig => e.control == RETRIG && e.count == 1 && e.value == DEFAULT_FINAL_VALUE
    case Prng => e.control == PRNG && e.value == 0
  }

  lemma BareIs(y: word)
    requires Bare(y)
    ensures y == if NoStrobe(y) then NOSTROBE else ModeBits(KindFromMode(y).value)
    ensures TypeOf(y).Regular?
  {
  }

  lemma SlotBits(y: word)
    requires Stored(y)
    ensures InSlot(WithoutSlot(y), StoreSlot(y)) == y && StoreSlot(y) < POSITIONS
  {
  }

  lemma SlotIndependent(y: word)
    ensures KindFromMode(WithoutSlot(y)) == KindFromMode(y) && NoStrobe(WithoutSlot(y)) == NoStrobe(y)
  {
  }

  lemma TokenOfKind(kind: ValueKind)
    ensures TokenControl(ModeToken(kind)) == Some(ModeBits(kind))
  {
  }

  lemma TokenOfControl(y: word)
    requires Bare(WithoutSlot(y))
    ensures RegularToken(y).Ok? && TokenControl(RegularToken(y).value) == Some(WithoutSlot(y))
  {
    SlotIndependent(y);
    BareIs(WithoutSlot(y));
    TokenOfKind(KindFromMode(y).value);
  }

  lemma ValueParses(w: word)
    ensures ParseValue(Hex(NumberOf(w))) == Ok(w) && ParseValue(Dec(NumberOf(w))) == Ok(w)
  {
    WordRoundTrip(w);
    HexParses(NumberOf(w), 0xFFFF_FFFF);
    DecParses(NumberOf(w), 0xFFFF_FFFF);
  }

  lemma ByteRoundTrip(b: bv8)
    ensures ByteNumber(b) < 256 && ByteOf(ByteNumber(b)) == b
  {
  }

  lemma ByteParses(b: bv8)
    ensures ParseTrigger(Hex(ByteNumber(b))) == Ok(b)
  {
    ByteRoundTrip(b);
    HexParses(ByteNumber(b), 0xFF);
  }

  lemma RawBare(y: word, count: u32, value: word)
    requires Bare(y)
    ensures var r := FromRaw(y, count, value);
      r.Ok? && r.value.control == y && r.value.count == count && r.value.value == value
  {
    BareIs(y);
  }

  // ----- one element

  /** Parsing the words of one record. */
  function Reread(ws: seq<string>): Result<Item>
  {
    if ws == [] || Arity(ws[0]) != Some(|ws| - 1) then Err else ParseRecord(ws[0], ws[1..])
  }

  ghost predicate Gives(r: Result<Item>, e: El)
  {
    r.Ok? && r.value.Element? && r.value.e.Same(e)
  }

  ghost predicate Survives(e: El)
  {
    Record(e).Ok? && Gives(Reread(Record(e).value), e)
  }

  /** An element survives if the words of its record are parsed into an equal one. */
  lemma Concludes(e: El, ws: seq<string>, x: Result<El>)
    requires Record(e) == Ok(ws) && Reread(ws) == Wrapped(x)
    ensures Survives(e) <==> x.Ok? && x.value.Same(e)
  {
  }

  lemma TokenIsBare(token: string)
    requires TokenControl(token).Some?
    ensures var y := TokenControl(token).value; Bare(y) && WithoutSlot(y) == y
    ensures Arity(token) == Some(2) && token != "f" && token != "store"
  {
  }

  lemma SlotAdded(y: word, i: word)
    requires WithoutSlot(y) == y && i < POSITIONS
    ensures WithoutSlot(InSlot(y, i)) == y && Stored(InSlot(y, i))
  {
  }

  lemma RegularRecord(token: string, a: string, b: string)
    requires TokenControl(token).Some?
    ensures Reread([token, a, b]) == Wrapped(ParseRegular(token, a, b))
  {
    TokenIsBare(token);
    assert [token, a, b][1..] == [a, b];
  }

  lemma RegularParses(token: string, count: u32, value: word)
    requires TokenControl(token).Some?
    ensures var r := ParseRegular(token, Dec(count), Hex(NumberOf(value)));
      r.Ok? && r.value.control == TokenControl(token).value && r.value.count == count && r.value.value == value
  {
    TokenIsBare(token);
    DecParses(count, 0xFFFF_FFFF);
    ValueParses(value);
    RawBare(TokenControl(token).value, count, value);
  }

  lemma ParsesStored(slot: word, token: string, count: u32, value: word)
    requires TokenControl(token).Some? && slot < POSITIONS
    ensures var r := ParseStored(Dec(NumberOf(slot)), token, Dec(count), Hex(NumberOf(value)));
      r.Ok? && r.value.count == count && r.value.value == value
      && r.value.control == InSlot(TokenControl(token).value, slot)
  {
    RegularParses(token, count, value);
    ValueParses(slot);
  }

  lemma StoreRecord(a: string, b: string, c: string, d: string)
    ensures Reread(["store", a, b, c, d]) == Wrapped(ParseStored(a, b, c, d))
  {
    var ws := ["store", a, b, c, d];
    assert ws[1..] == [a, b, c, d];
  }

  lemma UnstoredSurvives(e: El)
    requires e.IsRegular() && !Stored(e.control)
    ensures Survives(e) <==> Expressible(e)
  {
    var token := RegularToken(e.control);
    if Bare(WithoutSlot(e.control)) { TokenOfControl(e.control); }
    if token.Ok? {
      TokenNamed(e.control);
      TokenIsBare(token.value);
      RegularParses(token.value, e.count, e.value);
      RegularRecord(token.value, Dec(e.count), Hex(NumberOf(e.value)));
    }
  }

  lemma TokenNamed(y: word)
    requires RegularToken(y).Ok?
    ensures TokenControl(RegularToken(y).value).Some?
  {
    TokenOfKind(KindFromMode(y).value);
  }

  /** A stored element is recovered exactly when `y` is all its control word holds besides the slot. */
  lemma StoredAgain(e: El, y: word)
    requires e.IsRegular() && Stored(e.control) && Bare(y) && WithoutSlot(y) == y
    requires Bare(WithoutSlot(e.control)) ==> y == WithoutSlot(e.control)
    ensures InSlot(y, StoreSlot(e.control)) == e.control <==> Expressible(e)
  {
    SlotBits(e.control);
    SlotAdded(y, StoreSlot(e.control));
  }

  lemma StoredWords(e: El, token: string)
    requires e.IsRegular() && Stored(e.control) && RegularToken(e.control) == Ok(token)
    ensures Record(e) == Ok(["store", Dec(NumberOf(StoreSlot(e.control))), token, Dec(e.count), Hex(NumberOf(e.value))])
  {
    assert ["store", Dec(NumberOf(StoreSlot(e.control)))] + [token, Dec(e.count), Hex(NumberOf(e.value))]
      == ["store", Dec(NumberOf(StoreSlot(e.control))), token, Dec(e.count), Hex(NumberOf(e.value))];
  }

  lemma NamedStoredSurvives(e: El, token: string, slot: word)
    requires e.IsRegular() && Stored(e.control) && RegularToken(e.control) == Ok(token) && TokenControl(token).Some?
    requires slot == StoreSlot(e.control) && slot < POSITIONS
    ensures Survives(e) <==> InSlot(TokenControl(token).value, slot) == e.control
  {
    var a, c, d := Dec(NumberOf(slot)), Dec(e.count), Hex(NumberOf(e.value));
    StoredWords(e, token);
    StoreRecord(a, token, c, d);
    ParsesStored(slot, token, e.count, e.value);
    Concludes(e, ["store", a, token, c, d], ParseStored(a, token, c, d));
  }

  lemma StoredSurvives(e: El)
    requires e.IsRegular() && Stored(e.control)
    ensures Survives(e) <==> Expressible(e)
  {
    if Bare(WithoutSlot(e.control)) { TokenOfControl(e.control); }
    if RegularToken(e.control).Ok? {
      var token := RegularToken(e.control).value;
      SlotBits(e.control);
      TokenNamed(e.control);
      TokenIsBare(token);
      NamedStoredSurvives(e, token, StoreSlot(e.control));
      StoredAgain(e, TokenControl(token).value);
    }
  }

  lemma TriggerValue(value: word)
    ensures Condition(Pattern(value), Mask(value)) == value <==> value < 0x1_0000
  {
  }

  lemma TriggerControl(y: word, last: bool)
    requires TypeOf(y).Trigger? && (last <==> y & TRIGGERFINAL == TRIGGERFINAL)
    ensures TRIGGER | (if last then TRIGGERFINAL else 0) == y <==> y == TRIGGER || y == TRIGGER | TRIGGERFINAL
  {
  }

  lemma ConditionRecord(last: bool, a: string, b: string)
    ensures Reread([if last then "t" else "tn", a, b]) == Wrapped(ParseCondition(a, b, last))
  {
    var ws := [if last then "t" else "tn", a, b];
    assert ws[1..] == [a, b];
    assert TokenControl(ws[0]).None?;
  }

  lemma ConditionParses(value: word, last: bool)
    ensures ParseCondition(Hex(ByteNumber(Pattern(value))), Hex(ByteNumber(Mask(value))), last)
      == Ok(TriggerEl(Pattern(value), Mask(value), last))
  {
    ByteParses(Pattern(value));
    ByteParses(Mask(value));
  }

  lemma TriggerSame(e: El, last: bool)
    requires e.IsTrigger() && (last <==> e.control & TRIGGERFINAL == TRIGGERFINAL)
    ensures TriggerEl(Pattern(e.value), Mask(e.value), last).Same(e) <==> Expressible(e)
  {
    TriggerControl(e.control, last);
    TriggerValue(e.value);
  }

  lemma TriggerSurvives(e: El)
    requires e.IsTrigger()
    ensures Survives(e) <==> Expressible(e)
  {
    var last := e.control & TRIGGERFINAL == TRIGGERFINAL;
    ConditionRecord(last, Hex(ByteNumber(Pattern(e.value))), Hex(ByteNumber(Mask(e.value))));
    ConditionParses(e.value, last);
    TriggerSame(e, last);
  }

  lemma FinalRecord(a: string)
    ensures Reread(["final", a]) == Wrapped(ParseFinal(a))
  {
    assert ["final", a][1..] == [a] && TokenControl("final").None?;
  }

  lemma FinalMade(value: word)
    ensures FinalEl(Value(Plain, value, false)) == Ok(El(TERMINATE, 1, value, CPlain, Plain))
  {
  }

  lemma FinalParses(value: word)
    ensures ParseFinal(Hex(NumberOf(value))) == FinalEl(Value(Plain, value, false))
  {
    ValueParses(value);
  }

  lemma FinalSame(e: El)
    requires e.IsFinal()
    ensures Expressible(e) ==> ModeOf(e.control) == 0
    ensures El(TERMINATE, 1, e.value, CPlain, Plain).Same(e) <==> Expressible(e)
  {
  }

  lemma FinalWords(e: El)
    requires e.IsFinal()
    ensures Record(e) == if ModeOf(e.control) != 0 then Err else Ok(["final", Hex(NumberOf(e.value))])
  {
  }

  lemma FinalSurvives(e: El)
    requires e.IsFinal()
    ensures Survives(e) <==> Expressible(e)
  {
    FinalSame(e);
    FinalWords(e);
    if ModeOf(e.control) == 0 {
      FinalParses(e.value);
      FinalRecord(Hex(NumberOf(e.value)));
      FinalMade(e.value);
      Concludes(e, ["final", Hex(NumberOf(e.value))], FinalEl(Value(Plain, e.value, false)));
    }
  }

  lemma ReplayRecord(a: string, b: string)
    ensures Reread(["r", a, b]) == Wrapped(ParseReplay(a, b))
  {
    assert ["r", a, b][1..] == [a, b] && TokenControl("r").None?;
  }

  lemma ReplayParses(count: u32, length: word)
    ensures ParseReplay(Dec(count), Hex(NumberOf(length))) == ReplayEl(count, length)
  {
    ValueParses(length);
    DecParses(count, 0xFFFF_FFFF);
  }

  lemma ReplaySame(e: El)
    requires e.IsReplay()
    ensures ReplayEl(e.count, e.value).Ok? && ReplayEl(e.count, e.value).value.Same(e) <==> Expressible(e)
  {
  }

  lemma ReplaySurvives(e: El)
    requires e.IsReplay()
    ensures Survives(e) <==> Expressible(e)
  {
    ReplayParses(e.count, e.value);
    ReplayRecord(Dec(e.count), Hex(NumberOf(e.value)));
    ReplaySame(e);
  }

  lemma PrngRecord(a: string)
    ensures Reread(["pr", a]) == Wrapped(ParsePrng(a))
  {
    assert ["pr", a][1..] == [a] && TokenControl("pr").None?;
  }

  lemma PrngParses(count: u32)
    ensures ParsePrng(Dec(count)) == Ok(PrngEl(count))
  {
    DecParses(count, 0xFFFF_FFFF);
  }

  lemma PrngWords(e: El)
    requires e.Type().Prng?
    ensures Record(e) == Ok(["pr", Dec(e.count)])
  {
  }

  lemma PrngSame(e: El)
    requires e.Type().Prng?
    ensures PrngEl(e.count).Same(e) <==> Expressible(e)
  {
  }

  lemma PrngSurvives(e: El)
    requires e.Type().Prng?
    ensures Survives(e) <==> Expressible(e)
  {
    PrngWords(e);
    PrngParses(e.count);
    PrngRecord(Dec(e.count));
    Concludes(e, ["pr", Dec(e.count)], Ok(PrngEl(e.count)));
    PrngSame(e);
  }

  lemma RetrigRecord()
    ensures Reread(["rt"]) == Ok(Element(RetrigEl(DEFAULT_FINAL_VALUE)))
  {
    assert TokenControl("rt").None?;
  }

  lemma RetrigSame(e: El)
    requires e.Type().Retrig?
    ensures Record(e) == Ok(["rt"])
    ensures RetrigEl(DEFAULT_FINAL_VALUE).Same(e) <==> Expressible(e)
  {
  }

  lemma RetrigSurvives(e: El)
    requires e.Type().Retrig?
    ensures Survives(e) <==> Expressible(e)
  {
    RetrigRecord();
    RetrigSame(e);
    Concludes(e, ["rt"], Ok(RetrigEl(DEFAULT_FINAL_VALUE)));
  }

  /** The text form keeps an element exactly when it is expressible. */
  lemma SurvivesIff(e: El)
    ensures Survives(e) <==> Expressible(e)
  {
    match e.Type()
    case Regular => if Stored(e.control) { StoredSurvives(e); } else { UnstoredSurvives(e); }
    case Trigger => TriggerSurvives(e);
    case Final => FinalSurvives(e);
    case Replay => ReplaySurvives(e);
    case Retrig => RetrigSurvives(e);
    case Prng => PrngSurvives(e);
  }
}
