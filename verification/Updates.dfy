/**
  Which updates make an earlier one irrelevant. A bitwise update keeps some bits of the previous
  output and flips some; a shift moves them. From this follow the bits an update may change and
  the bits of the previous output it depends on.
*/
module Updates {
  import opened Bits
  import opened Elements

  predicate IsShift(kind: ValueKind) { kind.BitSll? || kind.BitSrl? }

  function Kept(kind: ValueKind, o: word): word
  {
    match kind
    case Plain | BitLoad | TriggerValue => 0
    case BitSet | BitOr | BitClear => !o
    case BitAnd => o
    case _ => 0xFFFF_FFFF
  }

  function Flipped(kind: ValueKind, o: word): word
  {
    match kind
    case BitClear | BitAnd => 0
    case BitNot => 0xFFFF_FFFF
    case BitXnor => !o
    case _ => o
  }

  function Affine(a: word, b: word, v: word): word { (v & a) ^ b }

  /** The bits of the previous output that the new one depends on. */
  function Reads(kind: ValueKind, o: word): word
  {
    match kind
    case BitSll => Srl(0xFFFF_FFFF, o)
    case BitSrl => Sll(0xFFFF_FFFF, o)
    case _ => Kept(kind, o)
  }

  function AffineChanges(a: word, b: word): word { !a | b }

  /** The bits that can differ between previous and new output. */
  function Changes(kind: ValueKind, o: word): word
  {
    if IsShift(kind) then (if o == 0 then 0 else 0xFFFF_FFFF) else AffineChanges(Kept(kind, o), Flipped(kind, o))
  }

  predicate Apart(x: word, y: word) { x & y == 0 }

  predicate Untouched(kind: ValueKind, o: word, r: word) { Apart(Changes(kind, o), r) }

  /** Whatever the first update does is lost in the second. */
  predicate Absorbs(x: ValueKind, o: word, y: ValueKind, p: word) { Untouched(x, o, Reads(y, p)) }

  predicate AbsorbsItself(kind: ValueKind, o: word) { Absorbs(kind, o, kind, o) }

  /** The updates that a second application leaves unchanged, kind by kind. */
  predicate Idempotent(kind: ValueKind, o: word)
  {
    match kind
    case BitNot => false
    case BitFlip | BitXor => o == 0
    case BitXnor => o == 0xFFFF_FFFF
    case BitSll | BitSrl => o == 0 || o >= 32
    case _ => true
  }

  // ----- bitwise updates

  lemma OrIsAffine(o: word, v: word)
    ensures v | o == Affine(!o, o, v)
  {
  }

  lemma OrIsAffineToo(o: word, v: word)
    ensures o | v == Affine(!o, o, v)
  {
  }

  lemma ClearIsAffine(o: word, v: word)
    ensures v & !o == Affine(!o, 0, v)
  {
  }

  lemma AndIsAffine(o: word, v: word)
    ensures o & v == Affine(o, 0, v)
  {
  }

  lemma XorIsAffine(o: word, v: word)
    ensures v ^ o == Affine(0xFFFF_FFFF, o, v)
  {
  }

  lemma XorIsAffineToo(o: word, v: word)
    ensures o ^ v == Affine(0xFFFF_FFFF, o, v)
  {
  }

  lemma NotIsAffine(o: word, v: word)
    ensures !v == Affine(0xFFFF_FFFF, 0xFFFF_FFFF, v)
  {
  }

  lemma XnorIsAffine(o: word, v: word)
    ensures !(o ^ v) == Affine(0xFFFF_FFFF, !o, v)
  {
  }

  lemma LoadIsAffine(o: word, v: word)
    ensures o == Affine(0, o, v)
  {
  }

  /** The update of one kind at one previous output, as kept and flipped bits. */
  predicate IsAffineAt(kind: ValueKind, o: word, v: word)
  {
    ApplyValueKind(kind, o, v) == Affine(Kept(kind, o), Flipped(kind, o), v)
  }

  // kind by kind: what it computes, the bits it keeps and flips, and that these agree

  lemma BitSetActs(o: word, v: word)
    ensures ApplyValueKind(BitSet, o, v) == v | o
  {
  }

  lemma BitSetParts(o: word)
    ensures Kept(BitSet, o) == !o && Flipped(BitSet, o) == o
  {
  }

  lemma BitSetAffine(o: word, v: word)
    ensures IsAffineAt(BitSet, o, v)
  {
    BitSetActs(o, v);
    BitSetParts(o);
    OrIsAffine(o, v);
  }

  lemma BitOrActs(o: word, v: word)
    ensures ApplyValueKind(BitOr, o, v) == o | v
  {
    assert BitOr != BitSet;  // two kinds, one operation
  }

  lemma BitOrParts(o: word)
    ensures Kept(BitOr, o) == !o && Flipped(BitOr, o) == o
  {
  }

  lemma BitOrAffine(o: word, v: word)
    ensures IsAffineAt(BitOr, o, v)
  {
    BitOrActs(o, v);
    BitOrParts(o);
    OrIsAffineToo(o, v);
  }

  lemma BitClearActs(o: word, v: word)
    ensures ApplyValueKind(BitClear, o, v) == v & !o
  {
  }

  lemma BitClearParts(o: word)
    ensures Kept(BitClear, o) == !o && Flipped(BitClear, o) == 0
  {
  }

  lemma BitClearAffine(o: word, v: word)
    ensures IsAffineAt(BitClear, o, v)
  {
    BitClearActs(o, v);
    BitClearParts(o);
    ClearIsAffine(o, v);
  }

  lemma BitAndActs(o: word, v: word)
    ensures ApplyValueKind(BitAnd, o, v) == o & v
  {
  }

  lemma BitAndParts(o: word)
    ensures Kept(BitAnd, o) == o && Flipped(BitAnd, o) == 0
  {
  }

  lemma BitAndAffine(o: word, v: word)
    ensures IsAffineAt(BitAnd, o, v)
  {
    BitAndActs(o, v);
    BitAndParts(o);
    AndIsAffine(o, v);
  }

  lemma BitFlipActs(o: word, v: word)
    ensures ApplyValueKind(BitFlip, o, v) == v ^ o
  {
  }

  lemma BitFlipParts(o: word)
    ensures Kept(BitFlip, o) == 0xFFFF_FFFF && Flipped(BitFlip, o) == o
  {
  }

  lemma BitFlipAffine(o: word, v: word)
    ensures IsAffineAt(BitFlip, o, v)
  {
    BitFlipActs(o, v);
    BitFlipParts(o);
    XorIsAffine(o, v);
  }

  lemma BitXorActs(o: word, v: word)
    ensures ApplyValueKind(BitXor, o, v) == o ^ v
  {
  }

  lemma BitXorParts(o: word)
    ensures Kept(BitXor, o) == 0xFFFF_FFFF && Flipped(BitXor, o) == o
  {
  }

  lemma BitXorAffine(o: word, v: word)
    ensures IsAffineAt(BitXor, o, v)
  {
    BitXorActs(o, v);
    BitXorParts(o);
    XorIsAffineToo(o, v);
  }

  lemma BitNotActs(o: word, v: word)
    ensures ApplyValueKind(BitNot, o, v) == !v
  {
  }

  lemma BitNotParts(o: word)
    ensures Kept(BitNot, o) == 0xFFFF_FFFF && Flipped(BitNot, o) == 0xFFFF_FFFF
  {
  }

  lemma BitNotAffine(o: word, v: word)
    ensures IsAffineAt(BitNot, o, v)
  {
    BitNotActs(o, v);
    BitNotParts(o);
    NotIsAffine(o, v);
  }

  lemma BitXnorActs(o: word, v: word)
    ensures ApplyValueKind(BitXnor, o, v) == !(o ^ v)
  {
  }

  lemma BitXnorParts(o: word)
    ensures Kept(BitXnor, o) == 0xFFFF_FFFF && Flipped(BitXnor, o) == !o
  {
  }

  lemma BitXnorAffine(o: word, v: word)
    ensures IsAffineAt(BitXnor, o, v)
  {
    BitXnorActs(o, v);
    BitXnorParts(o);
    XnorIsAffine(o, v);
  }

  lemma BitLoadActs(o: word, v: word)
    ensures ApplyValueKind(BitLoad, o, v) == o
  {
  }

  lemma BitLoadParts(o: word)
    ensures Kept(BitLoad, o) == 0 && Flipped(BitLoad, o) == o
  {
  }

  lemma BitLoadAffine(o: word, v: word)
    ensures IsAffineAt(BitLoad, o, v)
  {
    BitLoadActs(o, v);
    BitLoadParts(o);
    LoadIsAffine(o, v);
  }

  lemma PlainActs(o: word, v: word)
    ensures ApplyValueKind(Plain, o, v) == o
  {
  }

  lemma PlainParts(o: word)
    ensures Kept(Plain, o) == 0 && Flipped(Plain, o) == o
  {
  }

  lemma PlainAffine(o: word, v: word)
    ensures IsAffineAt(Plain, o, v)
  {
    PlainActs(o, v);
    PlainParts(o);
    LoadIsAffine(o, v);
  }

  lemma TriggerValueActs(o: word, v: word)
    ensures ApplyValueKind(TriggerValue, o, v) == o
  {
  }

  lemma TriggerValueParts(o: word)
    ensures Kept(TriggerValue, o) == 0 && Flipped(TriggerValue, o) == o
  {
  }

  lemma TriggerValueAffine(o: word, v: word)
    ensures IsAffineAt(TriggerValue, o, v)
  {
    TriggerValueActs(o, v);
    TriggerValueParts(o);
    LoadIsAffine(o, v);
  }

  lemma Bitwise(kind: ValueKind, o: word, v: word)
    requires !IsShift(kind)
    ensures IsAffineAt(kind, o, v)
  {
    match kind
    case Plain => PlainAffine(o, v);
    case BitLoad => BitLoadAffine(o, v);
    case TriggerValue => TriggerValueAffine(o, v);
    case BitSet => BitSetAffine(o, v);
    case BitOr => BitOrAffine(o, v);
    case BitClear => BitClearAffine(o, v);
    case BitAnd => BitAndAffine(o, v);
    case BitFlip => BitFlipAffine(o, v);
    case BitXor => BitXorAffine(o, v);
    case BitNot => BitNotAffine(o, v);
    case BitXnor => BitXnorAffine(o, v);
  }

  lemma AffineSame(a: word, b: word, v: word, w: word)
    requires v & a == w & a
    ensures Affine(a, b, v) == Affine(a, b, w)
  {
    calc {
      Affine(a, b, v);
      (v & a) ^ b;
      (w & a) ^ b;
      Affine(a, b, w);
    }
  }

  lemma AffineDepends(a: word, b: word, v: word, w: word)
    requires Affine(a, b, v) == Affine(a, b, w)
    ensures v & a == w & a
  {
  }

  lemma AffineKeeps(a: word, b: word, v: word, r: word)
    requires AffineChanges(a, b) & r == 0
    ensures Affine(a, b, v) & r == v & r
  {
  }

  lemma AffineTells(a: word, b: word, r: word)
    requires AffineChanges(a, b) & r != 0
    ensures Affine(a, b, !b) & r != !b & r
  {
  }

  // ----- shifts

  lemma XorMasked(v: word, w: word, r: word)
    requires v & r == w & r
    ensures (v ^ w) & r == 0
  {
  }

  lemma SllGone(o: word, d: word, r: word)
    requires o < 32 && r == 0xFFFF_FFFF >> o && d & r == 0
    ensures d << o == 0
  {
  }

  lemma SrlGone(o: word, d: word, r: word)
    requires o < 32 && r == 0xFFFF_FFFF << o && d & r == 0
    ensures d >> o == 0
  {
  }

  lemma SllEqual(o: word, v: word, w: word)
    requires o < 32 && (v ^ w) << o == 0
    ensures v << o == w << o
  {
  }

  lemma SrlEqual(o: word, v: word, w: word)
    requires o < 32 && (v ^ w) >> o == 0
    ensures v >> o == w >> o
  {
  }

  lemma SllSame(o: word, v: word, w: word, r: word)
    requires o < 32 && r == 0xFFFF_FFFF >> o && v & r == w & r
    ensures v << o == w << o
  {
    XorMasked(v, w, r);
    SllGone(o, v ^ w, r);
    SllEqual(o, v, w);
  }

  lemma SrlSame(o: word, v: word, w: word, r: word)
    requires o < 32 && r == 0xFFFF_FFFF << o && v & r == w & r
    ensures v >> o == w >> o
  {
    XorMasked(v, w, r);
    SrlGone(o, v ^ w, r);
    SrlEqual(o, v, w);
  }

  lemma SllXor(o: word, v: word, w: word)
    requires o < 32 && v << o == w << o
    ensures (v ^ w) << o == 0
  {
  }

  lemma SrlXor(o: word, v: word, w: word)
    requires o < 32 && v >> o == w >> o
    ensures (v ^ w) >> o == 0
  {
  }

  lemma SllUnseen(o: word, d: word, r: word)
    requires o < 32 && r == 0xFFFF_FFFF >> o && d << o == 0
    ensures d & r == 0
  {
  }

  lemma SrlUnseen(o: word, d: word, r: word)
    requires o < 32 && r == 0xFFFF_FFFF << o && d >> o == 0
    ensures d & r == 0
  {
  }

  lemma MaskedEqual(v: word, w: word, r: word)
    requires (v ^ w) & r == 0
    ensures v & r == w & r
  {
  }

  lemma SllDepends(o: word, v: word, w: word, r: word)
    requires o < 32 && r == 0xFFFF_FFFF >> o && v << o == w << o
    ensures v & r == w & r
  {
    SllXor(o, v, w);
    SllUnseen(o, v ^ w, r);
    MaskedEqual(v, w, r);
  }

  lemma SrlDepends(o: word, v: word, w: word, r: word)
    requires o < 32 && r == 0xFFFF_FFFF << o && v >> o == w >> o
    ensures v & r == w & r
  {
    SrlXor(o, v, w);
    SrlUnseen(o, v ^ w, r);
    MaskedEqual(v, w, r);
  }

  lemma SllTells(o: word, r: word)
    requires 0 < o < 32 && r != 0
    ensures (r << o) & r != r
  {
  }

  lemma SrlTells(o: word, r: word)
    requires 0 < o < 32 && r != 0
    ensures (r >> o) & r != r
  {
  }

  lemma NoShift(v: word)
    ensures v << 0 == v && v >> 0 == v
  {
  }

  lemma SllReads(o: word, v: word, w: word, r: word)
    requires r == Srl(0xFFFF_FFFF, o)
    ensures v & r == w & r ==> Sll(v, o) == Sll(w, o)
    ensures Sll(v, o) == Sll(w, o) ==> v & r == w & r
  {
    if o < 32 {
      if v & r == w & r { SllSame(o, v, w, r); }
      if v << o == w << o { SllDepends(o, v, w, r); }
    }
  }

  lemma SrlReads(o: word, v: word, w: word, r: word)
    requires r == Sll(0xFFFF_FFFF, o)
    ensures v & r == w & r ==> Srl(v, o) == Srl(w, o)
    ensures Srl(v, o) == Srl(w, o) ==> v & r == w & r
  {
    if o < 32 {
      if v & r == w & r { SrlSame(o, v, w, r); }
      if v >> o == w >> o { SrlDepends(o, v, w, r); }
    }
  }

  // ----- all updates

  /** An update as a function of the previous output. */
  function Act(kind: ValueKind, o: word): word -> word { (v: word) => ApplyValueKind(kind, o, v) }
  function AffineAct(a: word, b: word): word -> word { (v: word) => Affine(a, b, v) }

  /** Agreement on the bits of a mask. */
  function On(r: word): (word, word) -> bool { (v: word, w: word) => v & r == w & r }

  /** Applying f first makes no difference to g. */
  ghost predicate Hides<T(!new)>(f: T -> T, g: T -> T) { forall v :: g(f(v)) == g(v) }
  ghost predicate SameAct<T(!new)>(f: T -> T, g: T -> T) { forall v :: f(v) == g(v) }
  ghost predicate Determined<T(!new)>(g: T -> T, on: (T, T) -> bool) { forall v, w :: on(v, w) ==> g(v) == g(w) }
  ghost predicate Depends<T(!new)>(g: T -> T, on: (T, T) -> bool) { forall v, w :: g(v) == g(w) ==> on(v, w) }
  ghost predicate Unaltered<T(!new)>(f: T -> T, on: (T, T) -> bool) { forall v :: on(f(v), v) }

  lemma HidesIff<T(!new)>(f: T -> T, g: T -> T, on: (T, T) -> bool)
    requires Determined(g, on) && Depends(g, on)
    ensures Hides(f, g) <==> Unaltered(f, on)
  {
  }

  lemma SameDepends<T(!new)>(f: T -> T, g: T -> T, on: (T, T) -> bool)
    requires SameAct(f, g) && Determined(g, on) && Depends(g, on)
    ensures Determined(f, on) && Depends(f, on)
  {
  }

  lemma SameUnaltered<T(!new)>(f: T -> T, g: T -> T, on: (T, T) -> bool)
    requires SameAct(f, g)
    ensures Unaltered(f, on) <==> Unaltered(g, on)
  {
  }

  lemma ActIsAffine(kind: ValueKind, o: word)
    requires !IsShift(kind)
    ensures SameAct(Act(kind, o), AffineAct(Kept(kind, o), Flipped(kind, o)))
  {
    forall v ensures Act(kind, o)(v) == AffineAct(Kept(kind, o), Flipped(kind, o))(v) { Bitwise(kind, o, v); }
  }

  lemma AffineDetermined(a: word, b: word)
    ensures Determined(AffineAct(a, b), On(a))
  {
    forall v, w | On(a)(v, w) ensures AffineAct(a, b)(v) == AffineAct(a, b)(w) { AffineSame(a, b, v, w); }
  }

  lemma AffineDependsOn(a: word, b: word)
    ensures Depends(AffineAct(a, b), On(a))
  {
    forall v, w | AffineAct(a, b)(v) == AffineAct(a, b)(w) ensures On(a)(v, w) { AffineDepends(a, b, v, w); }
  }

  lemma AffineUnaltered(a: word, b: word, r: word)
    ensures Unaltered(AffineAct(a, b), On(r)) <==> AffineChanges(a, b) & r == 0
  {
    if AffineChanges(a, b) & r == 0 {
      forall v ensures On(r)(AffineAct(a, b)(v), v) { AffineKeeps(a, b, v, r); }
    } else {
      AffineTells(a, b, r);
      assert !On(r)(AffineAct(a, b)(!b), !b);
    }
  }

  lemma SllDetermined(o: word, r: word)
    requires r == Srl(0xFFFF_FFFF, o)
    ensures Determined(Act(BitSll, o), On(r))
  {
    forall v, w | On(r)(v, w) ensures Act(BitSll, o)(v) == Act(BitSll, o)(w) { SllReads(o, v, w, r); }
  }

  lemma SllDependsOn(o: word, r: word)
    requires r == Srl(0xFFFF_FFFF, o)
    ensures Depends(Act(BitSll, o), On(r))
  {
    forall v, w | Act(BitSll, o)(v) == Act(BitSll, o)(w) ensures On(r)(v, w) { SllReads(o, v, w, r); }
  }

  lemma SrlDetermined(o: word, r: word)
    requires r == Sll(0xFFFF_FFFF, o)
    ensures Determined(Act(BitSrl, o), On(r))
  {
    forall v, w | On(r)(v, w) ensures Act(BitSrl, o)(v) == Act(BitSrl, o)(w) { SrlReads(o, v, w, r); }
  }

  lemma SrlDependsOn(o: word, r: word)
    requires r == Sll(0xFFFF_FFFF, o)
    ensures Depends(Act(BitSrl, o), On(r))
  {
    forall v, w | Act(BitSrl, o)(v) == Act(BitSrl, o)(w) ensures On(r)(v, w) { SrlReads(o, v, w, r); }
  }

  /** The new output is determined by the bits that are read, and determines them. */
  lemma ReadsExactly(kind: ValueKind, o: word)
    ensures Determined(Act(kind, o), On(Reads(kind, o))) && Depends(Act(kind, o), On(Reads(kind, o)))
  {
    match kind
    case BitSll => SllDetermined(o, Reads(kind, o)); SllDependsOn(o, Reads(kind, o));
    case BitSrl => SrlDetermined(o, Reads(kind, o)); SrlDependsOn(o, Reads(kind, o));
    case _ =>
      ActIsAffine(kind, o);
      AffineDetermined(Kept(kind, o), Flipped(kind, o));
      AffineDependsOn(Kept(kind, o), Flipped(kind, o));
      SameDepends(Act(kind, o), AffineAct(Kept(kind, o), Flipped(kind, o)), On(Kept(kind, o)));
  }

  lemma IdentityShift(kind: ValueKind, r: word)
    requires IsShift(kind)
    ensures Unaltered(Act(kind, 0), On(r))
  {
    forall v ensures On(r)(Act(kind, 0)(v), v) { NoShift(v); }
  }

  lemma SllAlters(o: word, r: word)
    requires o != 0 && r != 0
    ensures !On(r)(Act(BitSll, o)(r), r)
  {
    if o < 32 { SllTells(o, r); }
  }

  lemma SrlAlters(o: word, r: word)
    requires o != 0 && r != 0
    ensures !On(r)(Act(BitSrl, o)(r), r)
  {
    if o < 32 { SrlTells(o, r); }
  }

  lemma NothingMasked(f: word -> word, r: word)
    requires r == 0
    ensures Unaltered(f, On(r))
  {
    forall v ensures On(r)(f(v), v) { }
  }

  lemma OnesMask(r: word)
    ensures 0xFFFF_FFFF & r == r && 0 & r == 0
  {
  }

  lemma ShiftUnaltered(kind: ValueKind, o: word, r: word)
    requires IsShift(kind)
    ensures Unaltered(Act(kind, o), On(r)) <==> o == 0 || r == 0
  {
    if o == 0 {
      IdentityShift(kind, r);
    } else if r == 0 {
      NothingMasked(Act(kind, o), r);
    } else if kind.BitSll? {
      SllAlters(o, r);
    } else {
      SrlAlters(o, r);
    }
  }

  lemma ShiftUntouched(kind: ValueKind, o: word, r: word)
    requires IsShift(kind)
    ensures Untouched(kind, o, r) <==> o == 0 || r == 0
  {
    OnesMask(r);
  }

  lemma BitwiseUntouched(kind: ValueKind, o: word, r: word)
    requires !IsShift(kind)
    ensures Unaltered(Act(kind, o), On(r)) <==> Untouched(kind, o, r)
  {
    ActIsAffine(kind, o);
    AffineUnaltered(Kept(kind, o), Flipped(kind, o), r);
    SameUnaltered(Act(kind, o), AffineAct(Kept(kind, o), Flipped(kind, o)), On(r));
  }

  /** The bits of a mask stay as they were, for every previous output, exactly if none of them may change. */
  lemma ChangesExactly(kind: ValueKind, o: word, r: word)
    ensures Unaltered(Act(kind, o), On(r)) <==> Untouched(kind, o, r)
  {
    if IsShift(kind) {
      ShiftUnaltered(kind, o, r);
      ShiftUntouched(kind, o, r);
    } else {
      BitwiseUntouched(kind, o, r);
    }
  }

  /** An update is lost in the next one, whatever the output was before, exactly if that one absorbs it. */
  lemma AbsorbsIff(x: ValueKind, o: word, y: ValueKind, p: word)
    ensures Hides(Act(x, o), Act(y, p)) <==> Absorbs(x, o, y, p)
  {
    ReadsExactly(y, p);
    HidesIff(Act(x, o), Act(y, p), On(Reads(y, p)));
    ChangesExactly(x, o, Reads(y, p));
  }

  lemma Absorbed(x: ValueKind, o: word, y: ValueKind, p: word, v: word)
    requires Absorbs(x, o, y, p)
    ensures ApplyValueKind(y, p, ApplyValueKind(x, o, v)) == ApplyValueKind(y, p, v)
  {
    AbsorbsIff(x, o, y, p);
    HiddenAt(Act(x, o), Act(y, p), v);
  }

  lemma HiddenAt<T(!new)>(f: T -> T, g: T -> T, v: T)
    requires Hides(f, g)
    ensures g(f(v)) == g(v)
  {
  }

  lemma NotHidden<T(!new)>(f: T -> T, g: T -> T) returns (v: T)
    requires !Hides(f, g)
    ensures g(f(v)) != g(v)
  {
    v :| g(f(v)) != g(v);
  }

  /** A previous output that tells the difference. */
  lemma NotAbsorbed(x: ValueKind, o: word, y: ValueKind, p: word) returns (v: word)
    requires !Absorbs(x, o, y, p)
    ensures ApplyValueKind(y, p, ApplyValueKind(x, o, v)) != ApplyValueKind(y, p, v)
  {
    AbsorbsIff(x, o, y, p);
    v := NotHidden(Act(x, o), Act(y, p));
  }

  /** Loads absorb everything. */
  lemma LoadAbsorbs(x: ValueKind, o: word, p: word)
    ensures Absorbs(x, o, BitLoad, p)
  {
    OnesMask(Changes(x, o));
    MaskedByNothing(Changes(x, o));
  }

  lemma MaskedByNothing(c: word)
    ensures c & 0 == 0
  {
  }

  // ----- which updates are idempotent

  predicate AffineIdempotent(a: word, b: word) { Apart(AffineChanges(a, b), a) }

  lemma Parts(kind: ValueKind, o: word)
    requires !IsShift(kind)
    ensures Changes(kind, o) == AffineChanges(Kept(kind, o), Flipped(kind, o)) && Reads(kind, o) == Kept(kind, o)
  {
  }

  lemma SameApart(x: word, y: word, x': word, y': word)
    requires x == x' && y == y'
    ensures Apart(x, y) <==> Apart(x', y')
  {
  }

  lemma ByParts(kind: ValueKind, o: word, a: word, b: word)
    requires !IsShift(kind) && a == Kept(kind, o) && b == Flipped(kind, o)
    ensures AbsorbsItself(kind, o) <==> AffineIdempotent(a, b)
  {
    Parts(kind, o);
    SameApart(Changes(kind, o), Reads(kind, o), AffineChanges(a, b), a);
  }

  lemma MaskIdempotent(o: word)
    ensures AffineIdempotent(!o, o) && AffineIdempotent(!o, 0) && AffineIdempotent(o, 0)
  {
    SetApart(o);
    ClearApart(o);
    AndApart(o);
  }

  lemma SetApart(o: word)
    ensures Apart(AffineChanges(!o, o), !o)
  {
  }

  lemma ClearApart(o: word)
    ensures Apart(AffineChanges(!o, 0), !o)
  {
  }

  lemma AndApart(o: word)
    ensures Apart(AffineChanges(o, 0), o)
  {
  }

  lemma FlipIdempotent(b: word)
    ensures AffineIdempotent(0xFFFF_FFFF, b) ==> b == 0
    ensures b == 0 ==> AffineIdempotent(0xFFFF_FFFF, b)
  {
  }

  lemma Complement(o: word)
    ensures !o == 0 ==> o == 0xFFFF_FFFF
    ensures o == 0xFFFF_FFFF ==> !o == 0
  {
  }

  lemma SomeBitStays(o: word)
    ensures (Srl(0xFFFF_FFFF, o) == 0 <==> o >= 32) && (Sll(0xFFFF_FFFF, o) == 0 <==> o >= 32)
  {
  }

  lemma MaskKinds(kind: ValueKind, o: word)
    requires kind.BitSet? || kind.BitOr? || kind.BitClear? || kind.BitAnd?
    ensures AbsorbsItself(kind, o)
  {
    ByParts(kind, o, Kept(kind, o), Flipped(kind, o));
    MaskIdempotent(o);
  }

  lemma FlipKinds(kind: ValueKind, o: word)
    requires kind.BitFlip? || kind.BitXor?
    ensures AbsorbsItself(kind, o) <==> o == 0
  {
    ByParts(kind, o, 0xFFFF_FFFF, o);
    FlipIdempotent(o);
  }

  lemma XnorKind(o: word)
    ensures AbsorbsItself(BitXnor, o) <==> o == 0xFFFF_FFFF
  {
    ByParts(BitXnor, o, 0xFFFF_FFFF, !o);
    FlipIdempotent(!o);
    Complement(o);
  }

  lemma NotKind(o: word)
    ensures !AbsorbsItself(BitNot, o)
  {
    ByParts(BitNot, o, 0xFFFF_FFFF, 0xFFFF_FFFF);
    FlipIdempotent(0xFFFF_FFFF);
  }

  lemma ShiftParts(kind: ValueKind, o: word, r: word)
    requires IsShift(kind) && r == Reads(kind, o)
    ensures AbsorbsItself(kind, o) <==> o == 0 || r == 0
  {
    ShiftUntouched(kind, o, r);
  }

  lemma ShiftKinds(kind: ValueKind, o: word)
    requires IsShift(kind)
    ensures AbsorbsItself(kind, o) <==> o == 0 || o >= 32
  {
    ShiftParts(kind, o, Reads(kind, o));
    SomeBitStays(o);
  }

  lemma ReadsNothing(kind: ValueKind, o: word)
    requires kind.Plain? || kind.BitLoad? || kind.TriggerValue?
    ensures Reads(kind, o) == 0
  {
  }

  lemma ApartFromNothing(c: word, r: word)
    requires r == 0
    ensures Apart(c, r)
  {
    MaskedByNothing(c);
  }

  lemma LoadKinds(kind: ValueKind, o: word)
    requires kind.Plain? || kind.BitLoad? || kind.TriggerValue?
    ensures AbsorbsItself(kind, o)
  {
    ReadsNothing(kind, o);
    ApartFromNothing(Changes(kind, o), Reads(kind, o));
  }

  /** Applying an update twice is applying it once, whatever the previous output, exactly for these. */
  lemma IdempotentIff(kind: ValueKind, o: word)
    ensures Idempotent(kind, o) <==> AbsorbsItself(kind, o)
  {
    match kind
    case BitSet | BitOr | BitClear | BitAnd => MaskKinds(kind, o);
    case BitFlip | BitXor => FlipKinds(kind, o);
    case BitXnor => XnorKind(o);
    case BitNot => NotKind(o);
    case BitSll | BitSrl => ShiftKinds(kind, o);
    case Plain | BitLoad | TriggerValue => LoadKinds(kind, o);
  }

  lemma OnceIsEnough(kind: ValueKind, o: word, v: word)
    requires Idempotent(kind, o)
    ensures ApplyValueKind(kind, o, ApplyValueKind(kind, o, v)) == ApplyValueKind(kind, o, v)
  {
    IdempotentIff(kind, o);
    Absorbed(kind, o, kind, o, v);
  }

  /** A previous output that tells one application of another update from two. */
  lemma TwiceTells(kind: ValueKind, o: word) returns (v: word)
    requires !Idempotent(kind, o)
    ensures ApplyValueKind(kind, o, ApplyValueKind(kind, o, v)) != ApplyValueKind(kind, o, v)
  {
    IdempotentIff(kind, o);
    v := NotAbsorbed(kind, o, kind, o);
  }
}
