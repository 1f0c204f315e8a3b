/** Whole text files: writing, parsing and the round trip. */
module TextFile {
  import opened Bits
  import opened Wrappers
  import opened Elements
  import opened Chars
  import opened Literals
  import opened TextFormat

  // ----- the file

  ghost predicate AllWritable(s: seq<El>) { forall i :: 0 <= i < |s| ==> Writable(s[i]) }
  ghost predicate AllExpressible(s: seq<El>) { forall i :: 0 <= i < |s| ==> Expressible(s[i]) }

  predicate Writable(e: El) { Record(e).Ok? }

  ghost predicate WellFormed(ws: seq<string>)
  {
    ws != [] && Arity(ws[0]) == Some(|ws| - 1) && forall w :: w in ws ==> IsWord(w)
  }

  lemma TokenArity(y: word)
    requires RegularToken(y).Ok?
    ensures Arity(RegularToken(y).value) == Some(2) && IsWord(RegularToken(y).value)
  {
    TokenNamed(y);
    TokenIsBare(RegularToken(y).value);
  }

  lemma RegularWords(e: El)
    requires Writable(e) && e.IsRegular()
    ensures WellFormed(Record(e).value)
  {
    TokenArity(e.control);
    DecWord(e.count);
    HexWord(NumberOf(e.value));
    if Stored(e.control) {
      DecWord(NumberOf(StoreSlot(e.control)));
      StoredWords(e, RegularToken(e.control).value);
    }
  }

  lemma ConditionWords(e: El)
    requires e.IsTrigger()
    ensures WellFormed(Record(e).value)
  {
    HexWord(ByteNumber(Pattern(e.value)));
    HexWord(ByteNumber(Mask(e.value)));
  }

  lemma ReplayWords(e: El)
    requires e.IsReplay()
    ensures WellFormed(Record(e).value)
  {
    DecWord(e.count);
    HexWord(NumberOf(e.value));
  }

  lemma RecordWords(e: El)
    requires Writable(e)
    ensures WellFormed(Record(e).value)
  {
    match e.Type()
    case Regular => RegularWords(e);
    case Trigger => ConditionWords(e);
    case Final => HexWord(NumberOf(e.value));
    case Replay => ReplayWords(e);
    case Retrig =>
    case Prng => DecWord(e.count);
  }

  /** One line of the file. */
  function RecordLine(e: El): string
  {
    if !Writable(e) then [] else
      RecordWords(e);
      Joined(Record(e).value)
  }

  function ForceLine(force: bool): string { if force then "f\n" else "" }

  ghost function TextOf(s: seq<El>, force: bool): string { Listing(RecordLine, s) + ForceLine(force) }

  /** `write_sequence_to_stream`: throws exactly if some element has no text form. */
  method WriteSequence(s: seq<El>, force: bool) returns (r: Result<string>)
    ensures r.Ok? <==> AllWritable(s)
    ensures r.Ok? ==> r.value == TextOf(s, force)
  {
    r := WriteLines(Writable, RecordLine, s);
    if r.Ok? { r := Ok(r.value + ForceLine(force)); }
  }

  // ----- parsing

  type Outcome = Result<(seq<El>, bool)>

  /** Puts an item in front of what the rest of the file means. */
  function Combine(item: Result<Item>, rest: Outcome): Outcome
  {
    if item.Err? || rest.Err? then Err
    else if item.value.Force? then Ok((rest.value.0, true))
    else Ok(([item.value.e] + rest.value.0, rest.value.1))
  }

  /** The meaning of a list of words. */
  ghost function ParseWords(ws: seq<string>): Outcome
    decreases |ws|
  {
    if ws == [] then Ok(([], false))
    else
      var arity := Arity(ws[0]);
      if arity.None? || |ws| < 1 + arity.value then Err
      else Combine(ParseRecord(ws[0], ws[1..1 + arity.value]), ParseWords(ws[1 + arity.value..]))
  }

  ghost function Meaning(text: string): Outcome
  {
    var r := ParseWords(Words(text));
    if r.Err? || !FinalLast(r.value.0) then Err else r
  }

  ghost function Prepended(done: seq<El>, force: bool, rest: Outcome): Outcome
  {
    if rest.Err? then Err else Ok((done + rest.value.0, force || rest.value.1))
  }

  lemma PrependedStep(done: seq<El>, force: bool, item: Result<Item>, rest: Outcome)
    ensures item.Err? ==> Prepended(done, force, Combine(item, rest)) == Err
    ensures item.Ok? && item.value.Force? ==> Prepended(done, force, Combine(item, rest)) == Prepended(done, true, rest)
    ensures item.Ok? && item.value.Element? ==>
      Prepended(done, force, Combine(item, rest)) == Prepended(done + [item.value.e], force, rest)
  {
    if item.Ok? && item.value.Element? && rest.Ok? {
      assert done + ([item.value.e] + rest.value.0) == (done + [item.value.e]) + rest.value.0;
    }
  }

  /** One record at position i, and the position after it. */
  method ParseNext(ws: seq<string>, i: nat) returns (item: Result<Item>, next: nat)
    requires i < |ws|
    ensures item.Ok? ==> i < next <= |ws| && ParseWords(ws[i..]) == Combine(item, ParseWords(ws[next..]))
    ensures item.Err? ==> ParseWords(ws[i..]) == Err
  {
    next := i;
    var arity := Arity(ws[i]);
    if arity.None? || |ws| < i + 1 + arity.value { return Err, i; }
    next := i + 1 + arity.value;
    item := ParseRecord(ws[i], ws[i + 1..next]);
    assert ws[i..][1..1 + arity.value] == ws[i + 1..next] && ws[i..][1 + arity.value..] == ws[next..];
  }

  /** `parse_sequence_from_stream`. */
  method ParseSequence(text: string) returns (r: Outcome)
    ensures r == Meaning(text)
  {
    var ws := Words(text);
    var elements: seq<El>, force, i := [], false, 0;
    assert ws[0..] == ws;
    PrependNothing(ParseWords(ws));
    while i < |ws|
      invariant 0 <= i <= |ws|
      invariant ParseWords(ws) == Prepended(elements, force, ParseWords(ws[i..]))
      decreases |ws| - i
    {
      var item, next := ParseNext(ws, i);
      if item.Err? { return Err; }
      PrependedStep(elements, force, item, ParseWords(ws[next..]));
      match item.value {
        case Force => force := true;
        case Element(e) => elements := elements + [e];
      }
      i := next;
    }
    assert elements + [] == elements;
    if exists k :: 0 <= k < |elements| - 1 && elements[k].IsFinal() { return Err; }
    return Ok((elements, force));
  }

  lemma PrependNothing(r: Outcome)
    ensures Prepended([], false, r) == r
  {
    if r.Ok? { assert [] + r.value.0 == r.value.0; }
  }

  // ----- round trip

  /** What rereading each record gives. */
  ghost function RereadAll(s: seq<El>, force: bool): (r: Outcome)
    ensures r.Ok? ==> |r.value.0| <= |s|
  {
    if s == [] then Ok(([], force))
    else if !Writable(s[0]) then Err
    else Combine(Reread(Record(s[0]).value), RereadAll(s[1..], force))
  }

  lemma FirstRecord(ws: seq<string>, rest: seq<string>)
    requires WellFormed(ws)
    ensures ParseWords(ws + rest) == Combine(Reread(ws), ParseWords(rest))
  {
    var all := ws + rest;
    var n := |ws| - 1;
    assert all[0] == ws[0] && all[1..1 + n] == ws[1..] && all[1 + n..] == rest;
  }

  lemma ForceWords(force: bool)
    ensures ParseWords(Words(ForceLine(force))) == Ok(([], force))
  {
    if force {
      FirstWord("f", "\n");
      SkipSpace('\n', []);
      assert "f" + "\n" == "f\n" && ['\n'] + [] == "\n";
      assert ParseWords(["f"]) == Combine(Ok(Force), ParseWords(["f"][1..]));
    }
  }

  lemma FirstRecordText(e: El, rest: string)
    requires Writable(e)
    ensures ParseWords(Words(RecordLine(e) + ("\n" + rest)))
      == Combine(Reread(Record(e).value), ParseWords(Words(rest)))
  {
    RecordWords(e);
    JoinedWords(Record(e).value, rest);
    FirstRecord(Record(e).value, Words(rest));
  }

  lemma {:induction false} ParsedText(s: seq<El>, force: bool)
    requires AllWritable(s)
    ensures ParseWords(Words(TextOf(s, force))) == RereadAll(s, force)
  {
    if s == [] {
      assert Listing(RecordLine, s) == [];
      assert TextOf(s, force) == ForceLine(force);
      ForceWords(force);
    } else {
      ParsedText(s[1..], force);
      ListingFirst(RecordLine, s, ForceLine(force));
      FirstRecordText(s[0], TextOf(s[1..], force));
    }
  }

  ghost predicate Recovers(r: Outcome, s: seq<El>, force: bool)
  {
    r.Ok? && SameSequence(r.value.0, s) && r.value.1 == force
  }

  lemma {:induction false} RereadAllIff(s: seq<El>, force: bool)
    ensures Recovers(RereadAll(s, force), s, force) <==> forall i :: 0 <= i < |s| ==> Survives(s[i])
  {
    if s != [] {
      RereadAllIff(s[1..], force);
      CombineIff(s, force, RereadAll(s[1..], force));
      assert forall i :: 0 <= i < |s[1..]| ==> s[1..][i] == s[i + 1];
    }
  }

  lemma CombineIff(s: seq<El>, force: bool, rest: Outcome)
    requires s != [] && (rest.Ok? ==> |rest.value.0| <= |s| - 1)
    ensures Writable(s[0]) ==>
      var all := Combine(Reread(Record(s[0]).value), rest);
      (Recovers(all, s, force) <==> Survives(s[0]) && Recovers(rest, s[1..], force))
  {
    if Writable(s[0]) {
      var item := Reread(Record(s[0]).value);
      var all := Combine(item, rest);
      if all.Ok? && item.value.Element? {
        assert all.value.0[0] == item.value.e && all.value.0[1..] == rest.value.0;
        assert forall i :: 0 < i < |s| ==> s[i] == s[1..][i - 1];
        assert forall i :: 0 < i < |all.value.0| ==> all.value.0[i] == rest.value.0[i - 1];
        assert SameSequence(all.value.0, s) <==> item.value.e.Same(s[0]) && SameSequence(rest.value.0, s[1..]);
      }
    }
  }

  /** The text form keeps a sequence and its flag exactly when every element is expressible and any final is last. */
  lemma TextRoundTrip(s: seq<El>, force: bool)
    ensures AllWritable(s) && Recovers(Meaning(TextOf(s, force)), s, force) <==> AllExpressible(s) && FinalLast(s)
  {
    forall i | 0 <= i < |s| ensures Survives(s[i]) <==> Expressible(s[i]) { SurvivesIff(s[i]); }
    RereadAllIff(s, force);
    if AllWritable(s) {
      ParsedText(s, force);
      var r := RereadAll(s, force);
      if r.Ok? && SameSequence(r.value.0, s) { SameFinalLast(r.value.0, s); }
    } else {
      assert exists i :: 0 <= i < |s| && !Writable(s[i]) && !Survives(s[i]);
    }
  }
}
