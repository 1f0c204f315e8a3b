/** What each record of a sequence file means, whatever its numbers are written like. */
module TextSyntax {
  import opened Bits
  import opened Wrappers
  import opened Elements
  import opened ElementUpdates
  import opened NumberSyntax
  import opened TextFormat
  import opened TextFile

  // ----- tokens

  /** The tokens of regular elements: the update and whether a strobe goes with it. */
  ghost predicate Names(token: string, kind: ValueKind, strobe: bool)
  {
    || (token == "d" && kind == BitLoad && strobe) || (token == "dn" && kind == BitLoad && !strobe)
    || (token == "s" && kind == BitSet && strobe) || (token == "c" && kind == BitClear && strobe)
    || (token == "x" && kind == BitFlip && strobe) || (token == "n" && kind == BitNot && strobe)
    || (token == "a" && kind == BitAnd && strobe) || (token == "o" && kind == BitOr && strobe)
    || (token == "xr" && kind == BitXor && strobe) || (token == "xn" && kind == BitXnor && strobe)
    || (token == "sl" && kind == BitSll && strobe) || (token == "sr" && kind == BitSrl && strobe)
  }

  /** A token's control word says its update, its strobe, and nothing else. */
  lemma TokenSays(token: string, kind: ValueKind, strobe: bool)
    requires Names(token, kind, strobe)
    ensures TokenControl(token).Some?
    ensures var y := TokenControl(token).value;
      && TypeOf(y).Regular? && KindFromMode(y) == Ok(kind) && NoStrobe(y) == !strobe
      && !Stored(y) && y & POSITIONS_MASK == 0
  {
  }

  /** How many words follow which token; any other token is unknown. */
  lemma Arities(token: string)
    ensures Arity(token) == Some(2)
      <==> (exists kind, strobe :: Names(token, kind, strobe)) || token in ["r", "t", "tn"]
    ensures Arity(token) == Some(4) <==> token == "store"
    ensures Arity(token) == Some(1) <==> token == "pr" || token == "final"
    ensures Arity(token) == Some(0) <==> token == "rt" || token == "f"
    ensures Arity(token).Some? ==> Arity(token).value in [0, 1, 2, 4]
  {
    if TokenControl(token).Some? { var kind, strobe := TokenKind(token); }
    if kind, strobe :| Names(token, kind, strobe) { TokenSays(token, kind, strobe); }
  }

  lemma TokenKind(token: string) returns (kind: ValueKind, strobe: bool)
    requires TokenControl(token).Some?
    ensures Names(token, kind, strobe)
  {
    strobe := token != "dn";
    kind :=
      if token == "s" then BitSet else if token == "c" then BitClear else if token == "x" then BitFlip
      else if token == "n" then BitNot else if token == "a" then BitAnd else if token == "o" then BitOr
      else if token == "xr" then BitXor else if token == "xn" then BitXnor
      else if token == "sl" then BitSll else if token == "sr" then BitSrl else BitLoad;
  }

  // ----- numbers

  /** A text that is a 32-bit number, and one that is none. */
  ghost predicate IsCount(t: string, n: u32) { PlainText(t) && Spells(t, n) }
  ghost predicate NoCount(t: string) { PlainText(t) && forall n: u32 :: !Spells(t, n) }

  lemma CountRead(t: string, n: u32)
    requires IsCount(t, n)
    ensures ParseCount(t) == Ok(n) && ParseValue(t) == Ok(WordOf(n))
  {
    ParseUnsignedIff(t, 0xFFFF_FFFF, n);
  }

  lemma CountRefused(t: string)
    requires NoCount(t)
    ensures ParseCount(t).Err? && ParseValue(t).Err?
  {
    if ParseCount(t).Ok? { ParseUnsignedIff(t, 0xFFFF_FFFF, ParseCount(t).value); }
  }

  lemma ByteRead(t: string, n: nat)
    requires PlainText(t) && Spells(t, n)
    ensures ParseTrigger(t) == if n <= 255 then Ok(ByteOf(n)) else Err
  {
    ParseUnsignedIff(t, 0xFF, n);
    var r := Literals.ParseUnsigned(t, 0xFF);
    if r.Ok? {
      ParseUnsignedIff(t, 0xFF, r.value);
      OneNumber(t, n, r.value);
    }
  }

  /** A text spells at most one number. */
  lemma OneNumber(t: string, m: nat, n: nat)
    requires Spells(t, m) && Spells(t, n)
    ensures m == n
  {
    if |t| > 1 && t[0] == '0' {
      LetterOrDigit(t, m);
      LetterOrDigit(t, n);
    }
  }

  lemma LetterOrDigit(t: string, n: nat)
    requires |t| > 1
    ensures Digits(t[1..], 8, n) ==> t[1] != 'x' && t[1] != 'X' && t[1] != 'b' && t[1] != 'B'
  {
    if Digits(t[1..], 8, n) { assert t[1..][0] == t[1]; }
  }

  // ----- records

  /** An unstored regular element with this update, count and value. */
  ghost predicate IsUpdate(e: El, kind: ValueKind, strobe: bool, count: u32, value: word)
  {
    && e.IsRegular() && e.valueKind == kind && e.count == count && e.value == value
    && NoStrobe(e.control) == !strobe
  }

  lemma RegularMeaning(token: string, kind: ValueKind, strobe: bool, a: string, b: string, n: u32, v: u32)
    requires Names(token, kind, strobe) && IsCount(a, n) && IsCount(b, v)
    ensures ParseRegular(token, a, b).Ok?
    ensures var e := ParseRegular(token, a, b).value;
      IsUpdate(e, kind, strobe, n, WordOf(v)) && !Stored(e.control) && e.control & POSITIONS_MASK == 0
  {
    TokenSays(token, kind, strobe);
    CountRead(a, n);
    CountRead(b, v);
    var e := RegularSent(TokenControl(token).value, n, WordOf(v), kind);
  }

  /** `<token> <count> <value>` is that update. */
  lemma RegularRecordMeans(token: string, kind: ValueKind, strobe: bool, a: string, b: string, n: u32, v: u32)
    requires Names(token, kind, strobe) && IsCount(a, n) && IsCount(b, v)
    ensures Reread([token, a, b]).Ok? && Reread([token, a, b]).value.Element?
    ensures var e := Reread([token, a, b]).value.e;
      IsUpdate(e, kind, strobe, n, WordOf(v)) && !Stored(e.control)
  {
    TokenSays(token, kind, strobe);
    RegularRecord(token, a, b);
    RegularMeaning(token, kind, strobe, a, b, n, v);
  }

  lemma RegularRefused(token: string, a: string, b: string)
    requires NoCount(a) || NoCount(b)
    ensures ParseRegular(token, a, b).Err?
  {
    if NoCount(a) { CountRefused(a); } else { CountRefused(b); }
  }

  lemma StoredMeaning(slot: string, token: string, kind: ValueKind, strobe: bool, a: string, b: string,
                      i: u32, n: u32, v: u32)
    requires Names(token, kind, strobe) && IsCount(slot, i) && IsCount(a, n) && IsCount(b, v)
    ensures var r := ParseStored(slot, token, a, b);
      && (r.Ok? <==> WordOf(i) < POSITIONS)
      && (r.Ok? ==> IsUpdate(r.value, kind, strobe, n, WordOf(v)) && Stored(r.value.control)
                    && StoreSlot(r.value.control) == WordOf(i))
  {
    CountRead(slot, i);
    RegularMeaning(token, kind, strobe, a, b, n, v);
    var e := ParseRegular(token, a, b).value;
    TokenControlOf(token, a, b, e);
    if WordOf(i) < POSITIONS { TokenInSlot(token, kind, strobe, WordOf(i)); }
    StoredUpdate(e, kind, strobe, n, WordOf(v), WordOf(i));
  }

  lemma TokenControlOf(token: string, a: string, b: string, e: El)
    requires ParseRegular(token, a, b) == Ok(e)
    ensures TokenControl(token) == Some(e.control)
  {
  }

  lemma TokenInSlot(token: string, kind: ValueKind, strobe: bool, i: word)
    requires Names(token, kind, strobe) && i < POSITIONS
    ensures TokenControl(token).Some? && TypeOf(InSlot(TokenControl(token).value, i)).Regular?
  {
  }

  /** `store <slot> <token> <count> <value>` is that update, kept in the slot; there are eight. */
  lemma StoreRecordMeans(slot: string, token: string, kind: ValueKind, strobe: bool, a: string, b: string,
                         i: u32, n: u32, v: u32)
    requires Names(token, kind, strobe) && IsCount(slot, i) && IsCount(a, n) && IsCount(b, v)
    ensures var r := Reread(["store", slot, token, a, b]);
      && (r.Ok? <==> WordOf(i) < POSITIONS)
      && (r.Ok? ==> r.value.Element? && IsUpdate(r.value.e, kind, strobe, n, WordOf(v))
                    && Stored(r.value.e.control) && StoreSlot(r.value.e.control) == WordOf(i))
  {
    StoredMeaning(slot, token, kind, strobe, a, b, i, n, v);
    StoreRecord(slot, token, a, b);
  }

  lemma StoredUpdate(e: El, kind: ValueKind, strobe: bool, n: u32, v: word, i: word)
    requires IsUpdate(e, kind, strobe, n, v) && e.control & POSITIONS_MASK == 0 && !Stored(e.control)
    requires i < POSITIONS ==> TypeOf(InSlot(e.control, i)).Regular?
    ensures e.StoredIn(i).Ok? <==> i < POSITIONS
    ensures i < POSITIONS ==> IsUpdate(e.StoredIn(i).value, kind, strobe, n, v)
    ensures i < POSITIONS ==> Stored(e.StoredIn(i).value.control) && StoreSlot(e.StoredIn(i).value.control) == i
  {
    if i < POSITIONS { StoringKeepsFields(e.control, i); }
  }

  /** `r <repetitions> <length>`, of up to eight stored elements. */
  lemma ReplayRecordMeans(a: string, b: string, n: u32, v: u32)
    requires IsCount(a, n) && IsCount(b, v)
    ensures Reread(["r", a, b])
      == (if WordOf(v) <= POSITIONS then Ok(Element(El(REPLAY, n, WordOf(v), CPlain, Plain))) else Err)
  {
    CountRead(a, n);
    CountRead(b, v);
    assert ["r", a, b][1..] == [a, b];
    ReplayIs(n, WordOf(v));
  }

  lemma ReplayIs(n: u32, w: word)
    ensures ReplayEl(n, w) == if w <= POSITIONS then Ok(El(REPLAY, n, w, CPlain, Plain)) else Err
    ensures TokenControl("r").None?
  {
  }

  /** `rt`, `f` and `pr <count>`. */
  lemma SingleWordsMean()
    ensures Reread(["rt"]) == Ok(Element(El(RETRIG, 1, 0xFFFF_FFFF, CPlain, Plain)))
    ensures Reread(["f"]) == Ok(Force)
  {
    assert ["rt"][1..] == [] && ["f"][1..] == [];
  }

  lemma PrngRecordMeans(a: string, n: u32)
    requires IsCount(a, n)
    ensures Reread(["pr", a]) == Ok(Element(El(PRNG, n, 0, CPlain, Plain)))
  {
    CountRead(a, n);
    assert ["pr", a][1..] == [a];
  }

  /** `final <value>` leaves that value on the outputs. */
  lemma FinalRecordMeans(a: string, v: u32, w: word)
    requires IsCount(a, v)
    ensures Reread(["final", a]).Ok? && Reread(["final", a]).value.Element?
    ensures var e := Reread(["final", a]).value.e;
      e.IsFinal() && e.value == WordOf(v) && e.Updated(w) == WordOf(v)
      && AsSent(e).Ok? && AsSent(e).value.Updated(w) == WordOf(v)
  {
    CountRead(a, v);
    assert ["final", a][1..] == [a];
    FinalActs(Value(Plain, WordOf(v), false));
  }

  lemma ConditionParsed(a: string, b: string, p: nat, m: nat, last: bool)
    requires PlainText(a) && Spells(a, p) && PlainText(b) && Spells(b, m)
    ensures ParseCondition(a, b, last)
      == if p <= 255 && m <= 255 then Ok(TriggerEl(ByteOf(p), ByteOf(m), last)) else Err
  {
    ByteRead(a, p);
    ByteRead(b, m);
  }

  lemma ConditionToken(token: string)
    requires token == "t" || token == "tn"
    ensures Arity(token) == Some(2) && TokenControl(token).None? && token != "f" && token != "store"
    ensures token != "r" && token != "rt" && token != "pr" && token != "final"
  {
  }

  lemma ConditionRecord(token: string, a: string, b: string)
    requires token == "t" || token == "tn"
    ensures Reread([token, a, b]) == Wrapped(ParseCondition(a, b, token == "t"))
  {
    var args := [a, b];
    ConditionToken(token);
    ConditionArgs(token, args);
    assert [token, a, b][1..] == args;
  }

  lemma ConditionArgs(token: string, args: seq<string>)
    requires (token == "t" || token == "tn") && |args| == 2 && Arity(token) == Some(2)
    ensures ParseRecord(token, args) == Wrapped(ParseCondition(args[0], args[1], token == "t"))
  {
    ConditionToken(token);
  }

  /** `t <pattern> <mask>` is the last trigger condition, `tn` one before it; both numbers have eight bits. */
  lemma ConditionRecordMeans(a: string, b: string, p: nat, m: nat, last: bool)
    requires PlainText(a) && Spells(a, p) && PlainText(b) && Spells(b, m)
    ensures var r := Reread([if last then "t" else "tn", a, b]);
      && (r.Ok? <==> p <= 255 && m <= 255)
      && (r.Ok? ==> r.value.Element? && r.value.e.IsTrigger() && r.value.e.count == 0
                    && (r.value.e.control & TRIGGERFINAL == TRIGGERFINAL <==> last)
                    && Pattern(r.value.e.value) == ByteOf(p) && Mask(r.value.e.value) == ByteOf(m))
  {
    ConditionParsed(a, b, p, m, last);
    ConditionRecord(if last then "t" else "tn", a, b);
    if p <= 255 && m <= 255 { ConditionIs(ByteOf(p), ByteOf(m), last); }
  }

  lemma ConditionIs(p: bv8, m: bv8, last: bool)
    ensures var e := TriggerEl(p, m, last);
      && e.IsTrigger() && e.count == 0 && (e.control & TRIGGERFINAL == TRIGGERFINAL <==> last)
      && Pattern(e.value) == p && Mask(e.value) == m
  {
  }

  // ----- files

  ghost predicate Whole(record: seq<string>) { record != [] && Arity(record[0]) == Some(|record| - 1) }

  ghost function AllWordsOf(records: seq<seq<string>>): seq<string>
  {
    if records == [] then [] else records[0] + AllWordsOf(records[1..])
  }

  /** What each record means by itself. */
  ghost function Items(records: seq<seq<string>>): seq<Result<Item>>
  {
    seq(|records|, i requires 0 <= i < |records| => Reread(records[i]))
  }

  /** The elements among items, in order; requests to force the trigger are none. */
  ghost function ElementsOf(items: seq<Result<Item>>): seq<El>
  {
    if items == [] then []
    else (if items[0].Ok? && items[0].value.Element? then [items[0].value.e] else []) + ElementsOf(items[1..])
  }

  ghost predicate AllOk(items: seq<Result<Item>>) { forall i :: 0 <= i < |items| ==> items[i].Ok? }
  ghost predicate SomeForce(items: seq<Result<Item>>) { exists i :: 0 <= i < |items| && items[i] == Ok(Force) }

  ghost predicate IsOutcome(r: Outcome, items: seq<Result<Item>>)
  {
    (r.Ok? <==> AllOk(items)) && (r.Ok? ==> r.value == (ElementsOf(items), SomeForce(items)))
  }

  lemma FirstItem(item: Result<Item>, rest: seq<Result<Item>>)
    ensures AllOk([item] + rest) <==> item.Ok? && AllOk(rest)
    ensures SomeForce([item] + rest) <==> item == Ok(Force) || SomeForce(rest)
    ensures ElementsOf([item] + rest)
      == (if item.Ok? && item.value.Element? then [item.value.e] else []) + ElementsOf(rest)
  {
    var all := [item] + rest;
    assert all[0] == item && all[1..] == rest && forall i :: 0 <= i < |rest| ==> rest[i] == all[i + 1];
  }

  lemma CombinedOutcome(item: Result<Item>, rest: seq<Result<Item>>, r: Outcome)
    requires IsOutcome(r, rest)
    ensures IsOutcome(Combine(item, r), [item] + rest)
  {
    FirstItem(item, rest);
    assert [] + ElementsOf(rest) == ElementsOf(rest);
  }

  lemma WholeFirst(record: seq<string>, rest: seq<string>)
    requires Whole(record)
    ensures ParseWords(record + rest) == Combine(Reread(record), ParseWords(rest))
  {
    var all := record + rest;
    var n := |record| - 1;
    assert all[0] == record[0] && all[1..1 + n] == record[1..] && all[1 + n..] == rest;
  }

  lemma ItemsFirst(first: seq<string>, rest: seq<seq<string>>)
    ensures Items([first] + rest) == [Reread(first)] + Items(rest)
  {
  }

  /** Whole records, one after another, are their elements in order; a request to force the trigger counts anywhere. */
  lemma {:induction false} FileMeans(records: seq<seq<string>>)
    requires forall i :: 0 <= i < |records| ==> Whole(records[i])
    ensures IsOutcome(ParseWords(AllWordsOf(records)), Items(records))
  {
    if records != [] {
      var first, rest := records[0], records[1..];
      FileMeans(rest);
      WholeFirst(first, AllWordsOf(rest));
      CombinedOutcome(Reread(first), Items(rest), ParseWords(AllWordsOf(rest)));
      ItemsFirst(first, rest);
      assert [first] + rest == records;
    }
  }

  /** An unknown token, or too few words after it. */
  ghost predicate Broken(left: seq<string>)
  {
    left != [] && (Arity(left[0]).None? || |left| <= Arity(left[0]).value)
  }

  lemma BrokenIsRefused(left: seq<string>)
    requires Broken(left)
    ensures ParseWords(left).Err?
  {
  }

  lemma RefusedAfter(record: seq<string>, left: seq<string>)
    requires Whole(record) && ParseWords(left).Err?
    ensures ParseWords(record + left).Err?
  {
    WholeFirst(record, left);
  }

  lemma WordsAfter(records: seq<seq<string>>, left: seq<string>)
    requires records != []
    ensures AllWordsOf(records) + left == records[0] + (AllWordsOf(records[1..]) + left)
  {
  }

  /** What is left after whole records must be one too. */
  lemma {:induction false} FileRefused(records: seq<seq<string>>, left: seq<string>)
    requires (forall i :: 0 <= i < |records| ==> Whole(records[i])) && Broken(left)
    ensures ParseWords(AllWordsOf(records) + left).Err?
  {
    if records == [] {
      assert [] + left == left;
      BrokenIsRefused(left);
    } else {
      FileRefused(records[1..], left);
      WordsAfter(records, left);
      RefusedAfter(records[0], AllWordsOf(records[1..]) + left);
    }
  }
}
