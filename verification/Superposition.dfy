/**
  Every update is affine over the bits: its result on the exclusive or of three words is the
  exclusive or of its three results. So two runs of updates that agree on all zeros and on the 32
  words with a single bit agree on every word.
*/
module Superposition {
  import opened Bits
  import opened Elements
  import opened Updates
  import opened Scan

  function Xor(v: word, w: word): word { v ^ w }
  function Xors(): (word, word) -> word { (v: word, w: word) => Xor(v, w) }

  ghost predicate Linear<T(!new)>(x: (T, T) -> T, f: T -> T) { forall a, b :: x(f(a), f(b)) == f(x(a, b)) }

  ghost predicate Additive<T(!new)>(x: (T, T) -> T, f: T -> T)
  {
    forall a, b, c :: x(x(f(a), f(b)), f(c)) == f(x(x(a, b), c))
  }

  lemma LinearIsAdditive<T(!new)>(x: (T, T) -> T, f: T -> T)
    requires Linear(x, f)
    ensures Additive(x, f)
  {
  }

  lemma SameAdditive<T(!new)>(x: (T, T) -> T, f: T -> T, g: T -> T)
    requires SameAct(f, g) && Additive(x, g)
    ensures Additive(x, f)
  {
  }

  // ----- bitwise updates

  lemma AffineOfXor(k: word, f: word, a: word, b: word, c: word)
    ensures ((a & k) ^ f) ^ ((b & k) ^ f) ^ ((c & k) ^ f) == ((a ^ b ^ c) & k) ^ f
  {
  }

  lemma AffineAtXor(k: word, f: word, a: word, b: word, c: word)
    ensures Affine(k, f, a) ^ Affine(k, f, b) ^ Affine(k, f, c) == Affine(k, f, a ^ b ^ c)
  {
    AffineOfXor(k, f, a, b, c);
  }

  lemma XorTwice(a: word, b: word, c: word)
    ensures Xor(Xor(a, b), c) == a ^ b ^ c
  {
  }

  lemma AffineXor(k: word, f: word, a: word, b: word, c: word)
    ensures Xor(Xor(Affine(k, f, a), Affine(k, f, b)), Affine(k, f, c)) == Affine(k, f, Xor(Xor(a, b), c))
  {
    AffineAtXor(k, f, a, b, c);
    XorTwice(a, b, c);
    XorTwice(Affine(k, f, a), Affine(k, f, b), Affine(k, f, c));
  }

  lemma AffineAdditive(k: word, f: word)
    ensures Additive(Xors(), AffineAct(k, f))
  {
    forall a, b, c
      ensures Xors()(Xors()(AffineAct(k, f)(a), AffineAct(k, f)(b)), AffineAct(k, f)(c))
        == AffineAct(k, f)(Xors()(Xors()(a, b), c))
    {
      AffineXor(k, f, a, b, c);
    }
  }

  // ----- shifts

  function SllAct(o: word): word -> word { (v: word) => Sll(v, o) }
  function SrlAct(o: word): word -> word { (v: word) => Srl(v, o) }

  lemma SllOfXor(o: word, v: word, w: word)
    requires o < 32
    ensures (v << o) ^ (w << o) == (v ^ w) << o
  {
  }

  lemma SrlOfXor(o: word, v: word, w: word)
    requires o < 32
    ensures (v >> o) ^ (w >> o) == (v ^ w) >> o
  {
  }

  lemma NothingOfXor()
    ensures 0 as word ^ 0 == 0
  {
  }

  lemma SllAtXor(o: word, v: word, w: word)
    ensures Sll(v, o) ^ Sll(w, o) == Sll(v ^ w, o)
  {
    if o < 32 { SllOfXor(o, v, w); } else { NothingOfXor(); }
  }

  lemma SrlAtXor(o: word, v: word, w: word)
    ensures Srl(v, o) ^ Srl(w, o) == Srl(v ^ w, o)
  {
    if o < 32 { SrlOfXor(o, v, w); } else { NothingOfXor(); }
  }

  lemma SllXor(o: word, v: word, w: word)
    ensures Xor(Sll(v, o), Sll(w, o)) == Sll(Xor(v, w), o)
  {
    SllAtXor(o, v, w);
  }

  lemma SrlXor(o: word, v: word, w: word)
    ensures Xor(Srl(v, o), Srl(w, o)) == Srl(Xor(v, w), o)
  {
    SrlAtXor(o, v, w);
  }

  lemma SllLinear(o: word)
    ensures Linear(Xors(), SllAct(o))
  {
    forall v, w ensures Xors()(SllAct(o)(v), SllAct(o)(w)) == SllAct(o)(Xors()(v, w)) { SllXor(o, v, w); }
  }

  lemma SrlLinear(o: word)
    ensures Linear(Xors(), SrlAct(o))
  {
    forall v, w ensures Xors()(SrlAct(o)(v), SrlAct(o)(w)) == SrlAct(o)(Xors()(v, w)) { SrlXor(o, v, w); }
  }

  lemma SllActs(o: word, v: word)
    ensures ApplyValueKind(BitSll, o, v) == Sll(v, o)
  {
  }

  lemma SrlActs(o: word, v: word)
    ensures ApplyValueKind(BitSrl, o, v) == Srl(v, o)
  {
  }

  lemma SllAdditive(o: word)
    ensures Additive(Xors(), Act(BitSll, o))
  {
    forall v ensures Act(BitSll, o)(v) == SllAct(o)(v) { SllActs(o, v); }
    SllLinear(o);
    LinearIsAdditive(Xors(), SllAct(o));
    SameAdditive(Xors(), Act(BitSll, o), SllAct(o));
  }

  lemma SrlAdditive(o: word)
    ensures Additive(Xors(), Act(BitSrl, o))
  {
    forall v ensures Act(BitSrl, o)(v) == SrlAct(o)(v) { SrlActs(o, v); }
    SrlLinear(o);
    LinearIsAdditive(Xors(), SrlAct(o));
    SameAdditive(Xors(), Act(BitSrl, o), SrlAct(o));
  }

  // ----- all updates, and runs of them

  /** An update of the exclusive or of three outputs is the exclusive or of the three updates. */
  lemma ActAdditive(kind: ValueKind, o: word)
    ensures Additive(Xors(), Act(kind, o))
  {
    match kind
    case BitSll => SllAdditive(o);
    case BitSrl => SrlAdditive(o);
    case _ =>
      ActIsAffine(kind, o);
      AffineAdditive(Kept(kind, o), Flipped(kind, o));
      SameAdditive(Xors(), Act(kind, o), AffineAct(Kept(kind, o), Flipped(kind, o)));
  }

  /** One transition, and a run of them, as a function of the state it starts in. */
  ghost function Move<S, T>(next: (S, T) -> S, e: T): S -> S { v => next(v, e) }
  ghost function Run<S, T>(next: (S, T) -> S, s: seq<T>): S -> S { v => End(next, v, s) }

  lemma {:induction false} RunAdditiveAt<S(!new), T(!new)>(
      x: (S, S) -> S, next: (S, T) -> S, s: seq<T>, a: S, b: S, c: S)
    requires forall e :: Additive(x, Move(next, e))
    ensures x(x(End(next, a, s), End(next, b, s)), End(next, c, s)) == End(next, x(x(a, b), c), s)
    decreases s
  {
    if s != [] {
      MoveAt(x, next, s[0], a, b, c);
      RunAdditiveAt(x, next, s[1..], next(a, s[0]), next(b, s[0]), next(c, s[0]));
    }
  }

  lemma MoveAt<S(!new), T>(x: (S, S) -> S, next: (S, T) -> S, e: T, a: S, b: S, c: S)
    requires Additive(x, Move(next, e))
    ensures x(x(next(a, e), next(b, e)), next(c, e)) == next(x(x(a, b), c), e)
  {
    var f := Move(next, e);
    assert x(x(f(a), f(b)), f(c)) == f(x(x(a, b), c));
  }

  lemma RunAdditive<S(!new), T(!new)>(x: (S, S) -> S, next: (S, T) -> S, s: seq<T>)
    requires forall e :: Additive(x, Move(next, e))
    ensures Additive(x, Run(next, s))
  {
    forall a, b, c ensures x(x(Run(next, s)(a), Run(next, s)(b)), Run(next, s)(c)) == Run(next, s)(x(x(a, b), c)) {
      RunAdditiveAt(x, next, s, a, b, c);
    }
  }

  // ----- 33 words decide

  function Unit(j: word): word
    requires j < 32
  {
    1 << j
  }

  function Without(v: word, u: word): word { Xor(v, u) }

  /** No bit at position k or above. */
  predicate Below(v: word, k: word)
    requires k <= 32
  {
    k == 32 || v >> k == 0
  }

  lemma BelowNone(v: word)
    requires Below(v, 0)
    ensures v == 0
  {
  }

  lemma TopBit(v: word, j: word, k: word)
    requires j < 32 && k == j + 1 && Below(v, k) && !Below(v, j)
    ensures Below(Without(v, Unit(j)), j)
  {
  }

  lemma TopBack(v: word, u: word)
    ensures Xors()(Xors()(Without(v, u), u), 0) == v
  {
  }

  lemma Previous(k: word) returns (j: word)
    requires 0 < k <= 32
    ensures j < k && j < 32 && k == j + 1
  {
    j := k - 1;
  }

  ghost predicate Same<T>(f: T -> T, g: T -> T, v: T) { f(v) == g(v) }

  lemma XorSame<T(!new)>(x: (T, T) -> T, f: T -> T, g: T -> T, a: T, b: T, c: T, v: T)
    requires Additive(x, f) && Additive(x, g) && Same(f, g, a) && Same(f, g, b) && Same(f, g, c)
    requires v == x(x(a, b), c)
    ensures Same(f, g, v)
  {
    assert x(x(f(a), f(b)), f(c)) == f(x(x(a, b), c));
    assert x(x(g(a), g(b)), g(c)) == g(x(x(a, b), c));
  }

  lemma AddUnit(f: word -> word, g: word -> word, v: word, u: word)
    requires Additive(Xors(), f) && Additive(Xors(), g)
    requires Same(f, g, 0) && Same(f, g, u) && Same(f, g, Without(v, u))
    ensures Same(f, g, v)
  {
    TopBack(v, u);
    XorSame(Xors(), f, g, Without(v, u), u, 0, v);
  }

  /** Agreement on all zeros and on the words with a single bit. */
  ghost predicate SameOnUnits(f: word -> word, g: word -> word)
  {
    Same(f, g, 0) && forall j: word :: j < 32 ==> Same(f, g, Unit(j))
  }

  lemma {:induction false} SameBelow(f: word -> word, g: word -> word, k: word, v: word)
    requires Additive(Xors(), f) && Additive(Xors(), g) && SameOnUnits(f, g)
    requires k <= 32 && Below(v, k)
    ensures Same(f, g, v)
    decreases k
  {
    if k == 0 {
      BelowNone(v);
    } else {
      var j := Previous(k);
      if Below(v, j) {
        SameBelow(f, g, j, v);
      } else {
        TopBit(v, j, k);
        SameBelow(f, g, j, Without(v, Unit(j)));
        AddUnit(f, g, v, Unit(j));
      }
    }
  }

  /** Additive functions that agree on the 33 words are the same function. */
  lemma UnitsDecide(f: word -> word, g: word -> word)
    requires Additive(Xors(), f) && Additive(Xors(), g)
    ensures SameAct(f, g) <==> SameOnUnits(f, g)
  {
    if SameOnUnits(f, g) {
      forall v ensures f(v) == g(v) {
        SameBelow(f, g, 32, v);
        assert Same(f, g, v);
      }
    } else if SameAct(f, g) {
      Everywhere(f, g);
    }
  }

  lemma Everywhere(f: word -> word, g: word -> word)
    requires SameAct(f, g)
    ensures SameOnUnits(f, g)
  {
  }
}
