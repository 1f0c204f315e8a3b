/**
  The timeline compiler of the browser interface: pulses on named output bits become run-length
  records. The script's BigInt masks are modelled as finite sets of bit positions.
*/
module Timeline {
  import opened Wrappers

  type Mask = set<nat>

  /** A pulse after validation, on output bit `bit`, active at cycles start <= t < end. */
  datatype Pulse = Pulse(bit: nat, start: nat, end: nat)

  datatype Record = Record(count: nat, value: Mask)

  // ----- what a timeline means

  ghost function Active(pulses: seq<Pulse>, t: int): Mask
  {
    set p | p in pulses && p.start <= t < p.end :: p.bit
  }

  /** Pulses are non-empty, and those on one bit do not overlap. */
  ghost predicate Disjoint(pulses: seq<Pulse>)
  {
    && (forall i :: 0 <= i < |pulses| ==> pulses[i].start < pulses[i].end)
    && forall i, j :: 0 <= i < |pulses| && 0 <= j < |pulses| && i != j && pulses[i].bit == pulses[j].bit
         ==> pulses[i].end <= pulses[j].start || pulses[j].end <= pulses[i].start
  }

  ghost function Ideal(pulses: seq<Pulse>, baseline: Mask, n: nat): seq<Mask>
  {
    seq(n, t requires 0 <= t < n => baseline + Active(pulses, t))
  }

  function Repeat(value: Mask, count: nat): seq<Mask> { seq(count, _ => value) }

  /** The output per cycle that records stand for. */
  ghost function Expand(records: seq<Record>): seq<Mask>
  {
    if records == [] then []
    else Expand(records[..|records| - 1]) + Repeat(records[|records| - 1].value, records[|records| - 1].count)
  }

  predicate CountsPositive(records: seq<Record>) { forall i :: 0 <= i < |records| ==> records[i].count > 0 }

  /** No record is empty and neighbours differ. */
  predicate Minimal(records: seq<Record>)
  {
    && CountsPositive(records)
    && forall i :: 0 < i < |records| ==> records[i - 1].value != records[i].value
  }

  /** How many runs of equal values an output has. */
  ghost function Runs(w: seq<Mask>): nat
  {
    if w == [] then 0
    else if |w| == 1 then 1
    else Runs(w[..|w| - 1]) + if w[|w| - 2] != w[|w| - 1] then 1 else 0
  }

  lemma {:induction false} RunsAppend(w: seq<Mask>, value: Mask, n: nat)
    requires n > 0
    ensures Runs(w + Repeat(value, n)) == Runs(w) + if w == [] || w[|w| - 1] != value then 1 else 0
    decreases n
  {
    var t := w + Repeat(value, n);
    assert t[..|t| - 1] == w + Repeat(value, n - 1);
    if n > 1 {
      RunsAppend(w, value, n - 1);
    } else {
      assert w + Repeat(value, 0) == w;
    }
  }

  /** Records of positive count cannot be fewer than the runs, and minimal ones are as few. */
  lemma {:induction false} RunsOfRecords(records: seq<Record>)
    requires CountsPositive(records)
    ensures Runs(Expand(records)) <= |records| && (Minimal(records) ==> Runs(Expand(records)) == |records|)
    ensures records != [] ==> var w := Expand(records); w != [] && w[|w| - 1] == records[|records| - 1].value
  {
    if records != [] {
      var n := |records| - 1;
      RunsOfRecords(records[..n]);
      RunsAppend(Expand(records[..n]), records[n].value, records[n].count);
    }
  }

  /** So no other records with the same output are fewer than minimal ones. */
  lemma MinimalIsFewest(records: seq<Record>, others: seq<Record>)
    requires Minimal(records) && CountsPositive(others) && Expand(others) == Expand(records)
    ensures |records| <= |others|
  {
    RunsOfRecords(records);
    RunsOfRecords(others);
  }

  // ----- events

  datatype Event = Event(setMask: Mask, clearMask: Mask)

  ghost function Starting(pulses: seq<Pulse>, c: nat): Mask { set p | p in pulses && p.start == c :: p.bit }
  ghost function Ending(pulses: seq<Pulse>, c: nat): Mask { set p | p in pulses && p.end == c :: p.bit }

  function EventAt(events: map<nat, Event>, c: nat): Event
  {
    if c in events then events[c] else Event({}, {})
  }

  ghost predicate Faithful(events: map<nat, Event>, pulses: seq<Pulse>)
  {
    forall c: nat :: EventAt(events, c) == Event(Starting(pulses, c), Ending(pulses, c))
  }

  /** Registers one pulse in the event map. */
  function Register(events: map<nat, Event>, p: Pulse): map<nat, Event>
  {
    var e := EventAt(events, p.start);
    var events' := events[p.start := e.(setMask := e.setMask + {p.bit})];
    var e' := EventAt(events', p.end);
    events'[p.end := e'.(clearMask := e'.clearMask + {p.bit})]
  }

  lemma RegisterAt(events: map<nat, Event>, p: Pulse, c: nat)
    ensures var e, e' := EventAt(events, c), EventAt(Register(events, p), c);
      && e'.setMask == e.setMask + (if p.start == c then {p.bit} else {})
      && e'.clearMask == e.clearMask + (if p.end == c then {p.bit} else {})
  {
  }

  lemma OneMorePulse(pulses: seq<Pulse>, p: Pulse, c: nat)
    ensures Starting(pulses + [p], c) == Starting(pulses, c) + (if p.start == c then {p.bit} else {})
    ensures Ending(pulses + [p], c) == Ending(pulses, c) + (if p.end == c then {p.bit} else {})
  {
    assert p in pulses + [p];
    assert forall q :: q in pulses ==> q in pulses + [p];
  }

  lemma RegisterIsFaithful(events: map<nat, Event>, pulses: seq<Pulse>, p: Pulse)
    requires Faithful(events, pulses)
    ensures Faithful(Register(events, p), pulses + [p])
  {
    forall c: nat ensures EventAt(Register(events, p), c) == Event(Starting(pulses + [p], c), Ending(pulses + [p], c)) {
      RegisterAt(events, p, c);
      OneMorePulse(pulses, p, c);
    }
  }

  /** Cycle 0 and every cycle at which some pulse starts or ends. */
  ghost function Keys(pulses: seq<Pulse>): set<nat>
  {
    {0} + (set p | p in pulses :: p.start) + (set p | p in pulses :: p.end)
  }

  lemma OneMoreKey(pulses: seq<Pulse>, p: Pulse)
    ensures Keys(pulses + [p]) == Keys(pulses) + {p.start, p.end}
  {
    assert p in pulses + [p];
    assert forall q :: q in pulses ==> q in pulses + [p];
  }

  method CollectEvents(pulses: seq<Pulse>) returns (events: map<nat, Event>, keys: set<nat>)
    ensures Faithful(events, pulses) && keys == Keys(pulses)
  {
    events, keys := map[], {0};
    for i := 0 to |pulses|
      invariant Faithful(events, pulses[..i]) && keys == Keys(pulses[..i])
    {
      RegisterIsFaithful(events, pulses[..i], pulses[i]);
      OneMoreKey(pulses[..i], pulses[i]);
      assert pulses[..i + 1] == pulses[..i] + [pulses[i]];
      events := Register(events, pulses[i]);
      keys := keys + {pulses[i].start, pulses[i].end};
    }
    assert pulses[..|pulses|] == pulses;
  }

  predicate Increasing(s: seq<nat>)
  {
    forall i, j :: 0 <= i < j < |s| ==> s[i] < s[j]
  }

  lemma Least(s: set<nat>, m: nat) returns (least: nat)
    requires m in s
    ensures least in s && forall x :: x in s ==> least <= x
    decreases m
  {
    if x :| x in s && x < m { least := Least(s, x); } else { least := m; }
  }

  lemma LeastExists(s: set<nat>)
    requires s != {}
    ensures exists m :: m in s && forall x :: x in s ==> m <= x
  {
    var m :| m in s;
    var least := Least(s, m);
  }

  ghost function Elements(s: seq<nat>): set<nat> { set x | x in s }

  lemma AppendLargest(s: seq<nat>, m: nat)
    requires Increasing(s) && (s == [] || s[|s| - 1] < m)
    ensures Increasing(s + [m]) && Elements(s + [m]) == Elements(s) + {m}
  {
    assert forall x :: x in s + [m] <==> x in s || x == m;
  }

  lemma PickLeast(s: seq<nat>, rest: set<nat>, keys: set<nat>, m: nat)
    requires Increasing(s) && rest <= keys && Elements(s) == keys - rest
    requires s != [] ==> forall y :: y in rest ==> s[|s| - 1] < y
    requires m in rest && forall x :: x in rest ==> m <= x
    ensures Increasing(s + [m]) && Elements(s + [m]) == keys - (rest - {m})
    ensures forall y :: y in rest - {m} ==> m < y
  {
    AppendLargest(s, m);
  }

  method LeastOf(rest: set<nat>) returns (m: nat)
    requires rest != {}
    ensures m in rest && forall x :: x in rest ==> m <= x
  {
    LeastExists(rest);
    m :| m in rest && forall x :: x in rest ==> m <= x;
  }

  /** The keys in ascending order. */
  method SortKeys(keys: set<nat>) returns (s: seq<nat>)
    ensures Increasing(s) && Elements(s) == keys
  {
    s := [];
    var rest := keys;
    while rest != {}
      invariant Increasing(s) && rest <= keys && Elements(s) == keys - rest
      invariant s != [] ==> forall y :: y in rest ==> s[|s| - 1] < y
      decreases rest
    {
      var m := LeastOf(rest);
      PickLeast(s, rest, keys, m);
      s, rest := s + [m], rest - {m};
    }
  }

  // ----- the sweep

  /** While one pulse runs through a cycle, no pulse on the same bit ends there. */
  lemma RunsThrough(pulses: seq<Pulse>, i: nat, j: nat, c: nat)
    requires Disjoint(pulses) && i < |pulses| && j < |pulses| && pulses[i].bit == pulses[j].bit
    requires pulses[i].start < c < pulses[i].end
    ensures pulses[j].end != c
  {
    assert i != j ==> pulses[i].end <= pulses[j].start || pulses[j].end <= pulses[i].start;
  }

  /** Clearing and then setting at one cycle turns the previous cycle's activity into this one's. */
  lemma SweepStep(pulses: seq<Pulse>, c: nat)
    requires Disjoint(pulses)
    ensures Active(pulses, c - 1) - Ending(pulses, c) + Starting(pulses, c) == Active(pulses, c)
  {
    forall b | b in Active(pulses, c)
      ensures b in Active(pulses, c - 1) - Ending(pulses, c) + Starting(pulses, c)
    {
      var i :| 0 <= i < |pulses| && pulses[i].bit == b && pulses[i].start <= c < pulses[i].end;
      if pulses[i].start < c {
        forall j | 0 <= j < |pulses| && pulses[j].bit == b ensures pulses[j].end != c { RunsThrough(pulses, i, j, c); }
      }
    }
  }

  /** Activity is constant where nothing starts or ends. */
  lemma NothingHappens(pulses: seq<Pulse>, c: int, t: int)
    requires c <= t
    requires forall p :: p in pulses ==> !(c < p.start <= t) && !(c < p.end <= t)
    ensures Active(pulses, t) == Active(pulses, c)
  {
  }

  lemma ExpandAppend(records: seq<Record>, r: Record)
    ensures Expand(records + [r]) == Expand(records) + Repeat(r.value, r.count)
  {
    assert (records + [r])[..|records|] == records;
  }

  lemma ExpandExtend(records: seq<Record>, more: nat)
    requires records != []
    ensures var n := |records| - 1; var last := records[n];
      Expand(records[n := last.(count := last.count + more)]) == Expand(records) + Repeat(last.value, more)
  {
    var n := |records| - 1;
    var last := records[n];
    var r' := records[n := last.(count := last.count + more)];
    assert r'[..n] == records[..n];
    assert Repeat(last.value, last.count + more) == Repeat(last.value, last.count) + Repeat(last.value, more);
    assert Expand(records[..n]) + (Repeat(last.value, last.count) + Repeat(last.value, more))
      == Expand(records) + Repeat(last.value, more);
  }

  /** Adds `count` cycles of `value`, joining an equal last record. */
  method Emit(records: seq<Record>, count: nat, value: Mask) returns (r: seq<Record>)
    requires Minimal(records) && count > 0
    ensures Minimal(r) && Expand(r) == Expand(records) + Repeat(value, count)
  {
    var n := |records|;
    if n > 0 && records[n - 1].value == value {
      ExpandExtend(records, count);
      r := records[n - 1 := records[n - 1].(count := records[n - 1].count + count)];
    } else {
      ExpandAppend(records, Record(count, value));
      r := records + [Record(count, value)];
    }
  }

  /** The stretch between two neighbouring keys is one constant run of the ideal output. */
  lemma IdealRun(pulses: seq<Pulse>, baseline: Mask, c: nat, next: nat)
    requires c < next
    requires forall p :: p in pulses ==> !(c < p.start < next) && !(c < p.end < next)
    ensures Ideal(pulses, baseline, next) == Ideal(pulses, baseline, c) + Repeat(baseline + Active(pulses, c), next - c)
    ensures Active(pulses, next - 1) == Active(pulses, c)
  {
    forall t | c <= t < next ensures Active(pulses, t) == Active(pulses, c) {
      NothingHappens(pulses, c, t);
    }
  }

  /** One iteration of the sweep, from one key to the next. */
  method SweepCycle(pulses: seq<Pulse>, events: map<nat, Event>, baseline: Mask, cycle: nat, next: nat,
                    active: Mask, records: seq<Record>)
    returns (active': Mask, records': seq<Record>)
    requires Disjoint(pulses) && Faithful(events, pulses) && cycle < next
    requires forall p :: p in pulses ==> !(cycle < p.start < next) && !(cycle < p.end < next)
    requires active == Active(pulses, (cycle as int) - 1)
    requires Minimal(records) && Expand(records) == Ideal(pulses, baseline, cycle)
    ensures active' == Active(pulses, (next as int) - 1)
    ensures Minimal(records') && Expand(records') == Ideal(pulses, baseline, next)
  {
    var event := EventAt(events, cycle);
    active' := active - event.clearMask;
    active' := active' + event.setMask;
    SweepStep(pulses, cycle);
    IdealRun(pulses, baseline, cycle, next);
    records' := Emit(records, next - cycle, baseline + active');
  }

  /**
    `compileTimeline` on validated pulses: expanding the records gives, at every cycle before the
    end, the untouched bits together with exactly the bits of the pulses active then.
  */
  method Compile(pulses: seq<Pulse>, tracked: Mask, owned: Mask) returns (records: seq<Record>, total: nat)
    requires pulses != [] && Disjoint(pulses)
    ensures Minimal(records) && total > 0
    ensures Expand(records) == Ideal(pulses, tracked - owned, total)
    ensures forall t: int :: t >= total ==> Active(pulses, t) == {}
    ensures exists p :: p in pulses && p.end == total
  {
    var events, keys := CollectEvents(pulses);
    var cycles := SortKeys(keys);
    KeysInOrder(pulses, keys, cycles);
    var baseline := tracked - owned;
    var activeMask: Mask := {};
    records := [];
    for i := 0 to |cycles| - 1
      invariant activeMask == Active(pulses, (cycles[i] as int) - 1)
      invariant Minimal(records) && Expand(records) == Ideal(pulses, baseline, cycles[i])
    {
      NoKeyBetween(pulses, keys, cycles, i);
      activeMask, records := SweepCycle(pulses, events, baseline, cycles[i], cycles[i + 1], activeMask, records);
    }
    total := cycles[|cycles| - 1];
  }

  /** The first key is 0 and the last is the end of some pulse, after which nothing is active. */
  lemma KeysInOrder(pulses: seq<Pulse>, keys: set<nat>, cycles: seq<nat>)
    requires pulses != [] && Disjoint(pulses)
    requires keys == Keys(pulses)
    requires Increasing(cycles) && Elements(cycles) == keys
    ensures |cycles| > 1 && cycles[0] == 0
    ensures forall t: int :: t >= cycles[|cycles| - 1] ==> Active(pulses, t) == {}
    ensures exists p :: p in pulses && p.end == cycles[|cycles| - 1]
    ensures Active(pulses, -1) == {}
  {
    assert 0 in cycles;
    var last := cycles[|cycles| - 1];
    assert forall x :: x in cycles ==> x <= last;
    forall p | p in pulses ensures p.end in cycles && p.end <= last && p.start < last {
      assert p.end in keys;
    }
    assert pulses[0] in pulses;
    assert last in keys;
  }

  lemma NoKeyBetween(pulses: seq<Pulse>, keys: set<nat>, cycles: seq<nat>, i: nat)
    requires keys == Keys(pulses)
    requires Increasing(cycles) && Elements(cycles) == keys && i + 1 < |cycles|
    ensures forall p :: p in pulses ==> !(cycles[i] < p.start < cycles[i + 1]) && !(cycles[i] < p.end < cycles[i + 1])
  {
    forall p | p in pulses ensures !(cycles[i] < p.start < cycles[i + 1]) && !(cycles[i] < p.end < cycles[i + 1]) {
      assert p.start in keys && p.end in keys;
      assert p.start in cycles && p.end in cycles;
    }
  }

  // ----- validation

  /** What the form holds; a field is None when its text is not an integer. */
  datatype ChannelInput = ChannelInput(id: nat, named: bool, bit: Option<int>)
  datatype PulseInput = PulseInput(channelId: nat, start: Option<int>, duration: Option<int>)

  predicate Apart(p: Pulse, q: Pulse) { p.end <= q.start || q.end <= p.start }

  predicate ApartFromAll(p: Pulse, s: seq<Pulse>) { forall q :: q in s ==> Apart(p, q) }

  predicate PairwiseApart(s: seq<Pulse>)
  {
    s == [] || (ApartFromAll(s[0], s[1..]) && PairwiseApart(s[1..]))
  }

  predicate NonEmpty(s: seq<Pulse>) { forall p :: p in s ==> p.start < p.end }

  function Insert(p: Pulse, s: seq<Pulse>): seq<Pulse>
  {
    if s == [] || p.start <= s[0].start then [p] + s else [s[0]] + Insert(p, s[1..])
  }

  /** The pulses ordered by start; equal starts keep their order. */
  function SortByStart(s: seq<Pulse>): seq<Pulse>
  {
    if s == [] then [] else Insert(s[0], SortByStart(s[1..]))
  }

  ghost predicate SortedByStart(s: seq<Pulse>)
  {
    |s| > 1 ==> s[0].start <= s[1].start && SortedByStart(s[1..])
  }

  lemma {:induction false} InsertMembers(p: Pulse, s: seq<Pulse>)
    ensures forall q :: q in Insert(p, s) <==> q == p || q in s
  {
    if s != [] && p.start > s[0].start {
      InsertMembers(p, s[1..]);
      assert s == [s[0]] + s[1..];
    }
  }

  lemma {:induction false} InsertIsSorted(p: Pulse, s: seq<Pulse>)
    requires SortedByStart(s)
    ensures SortedByStart(Insert(p, s))
  {
    if s == [] || p.start <= s[0].start {
      assert ([p] + s)[1..] == s;
    } else {
      InsertIsSorted(p, s[1..]);
      assert Insert(p, s)[1..] == Insert(p, s[1..]);
    }
  }

  lemma ApartFromCons(p: Pulse, q: Pulse, s: seq<Pulse>)
    ensures ApartFromAll(p, [q] + s) <==> Apart(p, q) && ApartFromAll(p, s)
    ensures PairwiseApart([q] + s) <==> ApartFromAll(q, s) && PairwiseApart(s)
  {
    assert q in [q] + s && ([q] + s)[1..] == s;
    assert forall x :: x in s ==> x in [q] + s;
  }

  lemma ApartFromInsert(q: Pulse, p: Pulse, s: seq<Pulse>)
    ensures ApartFromAll(q, Insert(p, s)) <==> Apart(q, p) && ApartFromAll(q, s)
  {
    InsertMembers(p, s);
  }

  /** Being apart does not depend on the order of the pulses. */
  lemma {:induction false} InsertKeepsApart(p: Pulse, s: seq<Pulse>)
    ensures PairwiseApart(Insert(p, s)) <==> ApartFromAll(p, s) && PairwiseApart(s)
  {
    if s == [] || p.start <= s[0].start {
      ApartFromCons(p, p, s);
    } else {
      var q, rest := s[0], s[1..];
      assert s == [q] + rest;
      InsertKeepsApart(p, rest);
      ApartFromCons(p, q, rest);
      ApartFromCons(p, q, Insert(p, rest));
      ApartFromInsert(q, p, rest);
    }
  }

  lemma {:induction false} SortKeepsApart(s: seq<Pulse>)
    ensures SortedByStart(SortByStart(s)) && (forall q :: q in SortByStart(s) <==> q in s)
    ensures PairwiseApart(SortByStart(s)) <==> PairwiseApart(s)
  {
    if s != [] {
      var p, rest := s[0], s[1..];
      SortKeepsApart(rest);
      InsertIsSorted(p, SortByStart(rest));
      InsertMembers(p, SortByStart(rest));
      InsertKeepsApart(p, SortByStart(rest));
      assert s == [p] + rest;
    }
  }

  lemma {:induction false} StartsAfterFirst(s: seq<Pulse>)
    requires SortedByStart(s) && s != []
    ensures forall q :: q in s ==> s[0].start <= q.start
  {
    assert s == [s[0]] + s[1..];
    if |s| > 1 { StartsAfterFirst(s[1..]); }
  }

  /** The check the page makes: each pulse starts no earlier than its predecessor ends. */
  predicate Chained(s: seq<Pulse>)
  {
    forall i :: 0 < i < |s| ==> s[i - 1].end <= s[i].start
  }

  lemma ChainedStep(s: seq<Pulse>)
    requires |s| > 1
    ensures Chained(s) <==> s[0].end <= s[1].start && Chained(s[1..])
  {
    var rest := s[1..];
    if s[0].end <= s[1].start && Chained(rest) {
      forall i | 0 < i < |s| ensures s[i - 1].end <= s[i].start {
        if i > 1 { assert rest[i - 2].end <= rest[i - 1].start; }
      }
    }
    if Chained(s) {
      forall i | 0 < i < |rest| ensures rest[i - 1].end <= rest[i].start { assert s[i].end <= s[i + 1].start; }
    }
  }

  lemma {:induction false} ChainedIsApart(s: seq<Pulse>)
    requires SortedByStart(s) && NonEmpty(s)
    ensures Chained(s) <==> PairwiseApart(s)
  {
    if |s| > 1 {
      var p, rest := s[0], s[1..];
      assert s == [p] + rest && p in s && rest[0] in s;
      ChainedStep(s);
      ChainedIsApart(rest);
      StartsAfterFirst(rest);
      assert ApartFromAll(p, rest) <==> p.end <= rest[0].start;
    }
  }

  function OnBit(s: seq<Pulse>, b: nat): seq<Pulse>
  {
    if s == [] then [] else (if s[0].bit == b then [s[0]] else []) + OnBit(s[1..], b)
  }

  lemma {:induction false} OnBitMembers(s: seq<Pulse>, b: nat)
    ensures forall p :: p in OnBit(s, b) <==> p in s && p.bit == b
  {
    if s != [] {
      OnBitMembers(s[1..], b);
      assert s == [s[0]] + s[1..];
    }
  }

  ghost predicate CrossApart(s: seq<Pulse>)
  {
    s == [] || ((forall q :: q in s[1..] && q.bit == s[0].bit ==> Apart(s[0], q)) && CrossApart(s[1..]))
  }

  ghost predicate BitsApart(s: seq<Pulse>) { forall b: nat :: PairwiseApart(OnBit(s, b)) }

  lemma OnBitCons(p: Pulse, rest: seq<Pulse>, b: nat)
    ensures OnBit([p] + rest, b) == if p.bit == b then [p] + OnBit(rest, b) else OnBit(rest, b)
  {
    assert ([p] + rest)[1..] == rest;
  }

  lemma BitsApartCons(p: Pulse, rest: seq<Pulse>)
    ensures BitsApart([p] + rest) <==> ApartFromAll(p, OnBit(rest, p.bit)) && BitsApart(rest)
  {
    ApartFromCons(p, p, OnBit(rest, p.bit));
    forall b: nat ensures OnBit([p] + rest, b) == if p.bit == b then [p] + OnBit(rest, b) else OnBit(rest, b) {
      OnBitCons(p, rest, b);
    }
    if BitsApart([p] + rest) {
      assert PairwiseApart(OnBit([p] + rest, p.bit));
      forall b: nat ensures PairwiseApart(OnBit(rest, b)) { assert PairwiseApart(OnBit([p] + rest, b)); }
    }
  }

  lemma {:induction false} CrossApartPerBit(s: seq<Pulse>)
    ensures CrossApart(s) <==> BitsApart(s)
  {
    if s != [] {
      CrossApartPerBit(s[1..]);
      OnBitMembers(s[1..], s[0].bit);
      BitsApartCons(s[0], s[1..]);
      assert s == [s[0]] + s[1..];
    }
  }

  lemma DisjointTail(p: Pulse, rest: seq<Pulse>)
    requires Disjoint([p] + rest)
    ensures Disjoint(rest) && forall q :: q in rest && q.bit == p.bit ==> Apart(p, q)
  {
    var s := [p] + rest;
    assert forall i :: 0 <= i < |rest| ==> rest[i] == s[i + 1];
    forall q | q in rest && q.bit == p.bit ensures Apart(p, q) {
      var j :| 0 <= j < |rest| && rest[j] == q;
      assert s[j + 1] == q && s[0] == p;
    }
  }

  lemma DisjointCons(p: Pulse, rest: seq<Pulse>)
    requires Disjoint(rest) && p.start < p.end
    requires forall q :: q in rest && q.bit == p.bit ==> Apart(p, q)
    ensures Disjoint([p] + rest)
  {
    var s := [p] + rest;
    forall i, j | 0 <= i < |s| && 0 <= j < |s| && i != j && s[i].bit == s[j].bit
      ensures s[i].end <= s[j].start || s[j].end <= s[i].start
    {
      if i == 0 { assert s[j] in rest; } else if j == 0 { assert s[i] in rest; } else {
        assert s[i] == rest[i - 1] && s[j] == rest[j - 1];
      }
    }
  }

  lemma {:induction false} CrossApartIsDisjoint(s: seq<Pulse>)
    requires NonEmpty(s)
    ensures CrossApart(s) <==> Disjoint(s)
  {
    if s != [] {
      var p, rest := s[0], s[1..];
      assert s == [p] + rest && p in s;
      CrossApartIsDisjoint(rest);
      if CrossApart(s) { DisjointCons(p, rest); }
      if Disjoint(s) { DisjointTail(p, rest); }
    }
  }

  /** Sorting each channel and comparing neighbours accepts exactly the disjoint timelines. */
  lemma SortedCheckIsExact(s: seq<Pulse>)
    requires NonEmpty(s)
    ensures (forall p :: p in s ==> Chained(SortByStart(OnBit(s, p.bit)))) <==> Disjoint(s)
  {
    CrossApartPerBit(s);
    CrossApartIsDisjoint(s);
    forall b: nat ensures Chained(SortByStart(OnBit(s, b))) <==> PairwiseApart(OnBit(s, b)) {
      OnBitMembers(s, b);
      SortKeepsApart(OnBit(s, b));
      ChainedIsApart(SortByStart(OnBit(s, b)));
    }
    forall b: nat | forall p :: p in s ==> p.bit != b ensures PairwiseApart(OnBit(s, b)) {
      OnBitMembers(s, b);
      assert OnBit(s, b) == [] by {
        if OnBit(s, b) != [] { assert OnBit(s, b)[0] in OnBit(s, b); }
      }
    }
  }

  predicate BitInRange(c: ChannelInput) { c.bit.Some? && 0 <= c.bit.value <= 31 }

  ghost predicate ChannelsOk(cs: seq<ChannelInput>)
  {
    && cs != []
    && (forall i :: 0 <= i < |cs| ==> cs[i].named && BitInRange(cs[i]))
    && forall i, j :: 0 <= i < j < |cs| ==> cs[i].bit != cs[j].bit
  }

  /** The bit of the last channel with this id. */
  function Lookup(cs: seq<ChannelInput>, id: nat): Option<nat>
  {
    if cs == [] then None
    else
      var c := cs[|cs| - 1];
      if c.id == id && BitInRange(c) then Some(c.bit.value) else Lookup(cs[..|cs| - 1], id)
  }

  predicate PulseOk(cs: seq<ChannelInput>, p: PulseInput)
  {
    && Lookup(cs, p.channelId).Some?
    && p.start.Some? && p.start.value >= 0 && p.duration.Some? && p.duration.value > 0
  }

  function Resolve(cs: seq<ChannelInput>, p: PulseInput): Pulse
    requires PulseOk(cs, p)
  {
    Pulse(Lookup(cs, p.channelId).value, p.start.value, p.start.value + p.duration.value)
  }

  predicate PulsesOk(cs: seq<ChannelInput>, ps: seq<PulseInput>) { forall p :: p in ps ==> PulseOk(cs, p) }

  function Resolved(cs: seq<ChannelInput>, ps: seq<PulseInput>): seq<Pulse>
    requires PulsesOk(cs, ps)
  {
    seq(|ps|, i requires 0 <= i < |ps| => assert ps[i] in ps; Resolve(cs, ps[i]))
  }

  ghost function OwnedBits(cs: seq<ChannelInput>): Mask
  {
    set c | c in cs && BitInRange(c) :: (c.bit.value as nat)
  }

  // ----- the same, said of the form's fields alone

  /** Bit b belongs to the channel id: it is the bit of the last channel that has it. */
  ghost predicate HasBit(cs: seq<ChannelInput>, id: nat, b: int)
  {
    exists i :: 0 <= i < |cs| && cs[i].id == id && cs[i].bit == Some(b) && forall j :: i < j < |cs| ==> cs[j].id != id
  }

  /** Complete, on a channel there is, and not empty. */
  ghost predicate PulseComplete(cs: seq<ChannelInput>, p: PulseInput)
  {
    && (exists i :: 0 <= i < |cs| && cs[i].id == p.channelId)
    && p.start.Some? && p.start.value >= 0 && p.duration.Some? && p.duration.value > 0
  }

  ghost predicate OneAfterTheOther(p: PulseInput, q: PulseInput)
  {
    && p.start.Some? && p.duration.Some? && q.start.Some? && q.duration.Some?
    && (p.start.value + p.duration.value <= q.start.value || q.start.value + q.duration.value <= p.start.value)
  }

  /** Pulses on one channel do not overlap. */
  ghost predicate ChannelsApart(ps: seq<PulseInput>)
  {
    forall i, j :: 0 <= i < |ps| && 0 <= j < |ps| && i != j && ps[i].channelId == ps[j].channelId
      ==> OneAfterTheOther(ps[i], ps[j])
  }

  /** A timeline the page accepts, said without the page's own procedure. */
  ghost predicate TimelineOk(cs: seq<ChannelInput>, ps: seq<PulseInput>)
  {
    && ChannelsOk(cs) && ps != [] && (forall i :: 0 <= i < |ps| ==> PulseComplete(cs, ps[i]))
    && ChannelsApart(ps)
  }

  /** Pulse p asks for bit b at cycle t. */
  ghost predicate Drives(cs: seq<ChannelInput>, p: PulseInput, b: int, t: int)
  {
    && HasBit(cs, p.channelId, b)
    && p.start.Some? && p.duration.Some? && p.start.value <= t < p.start.value + p.duration.value
  }

  ghost predicate Wanted(cs: seq<ChannelInput>, ps: seq<PulseInput>, b: int, t: int)
  {
    exists p :: p in ps && Drives(cs, p, b, t)
  }

  ghost predicate InRange(cs: seq<ChannelInput>) { forall i :: 0 <= i < |cs| ==> BitInRange(cs[i]) }

  lemma EarlierChannel(cs: seq<ChannelInput>, id: nat, b: int)
    requires cs != [] && cs[|cs| - 1].id != id && HasBit(cs[..|cs| - 1], id, b)
    ensures HasBit(cs, id, b)
  {
    var n := |cs| - 1;
    var i :| 0 <= i < n && cs[..n][i].id == id && cs[..n][i].bit == Some(b)
      && forall j :: i < j < n ==> cs[..n][j].id != id;
    forall j | i < j < |cs| ensures cs[j].id != id { if j < n { assert cs[..n][j] == cs[j]; } }
    assert cs[i] == cs[..n][i];
  }

  lemma {:induction false} LookupFinds(cs: seq<ChannelInput>, id: nat)
    requires InRange(cs)
    ensures Lookup(cs, id).Some? <==> exists i :: 0 <= i < |cs| && cs[i].id == id
    ensures Lookup(cs, id).Some? ==> HasBit(cs, id, Lookup(cs, id).value)
  {
    if cs != [] && cs[|cs| - 1].id != id {
      var some := cs[..|cs| - 1];
      LookupFinds(some, id);
      assert forall i :: 0 <= i < |some| ==> some[i] == cs[i];
      if Lookup(some, id).Some? { EarlierChannel(cs, id, Lookup(some, id).value); }
    }
  }

  lemma BitIsUnique(cs: seq<ChannelInput>, id: nat, b: int, c: int)
    requires HasBit(cs, id, b) && HasBit(cs, id, c)
    ensures b == c
  {
  }

  lemma LookupIff(cs: seq<ChannelInput>, id: nat, b: nat)
    requires InRange(cs)
    ensures Lookup(cs, id) == Some(b) <==> HasBit(cs, id, b)
  {
    LookupFinds(cs, id);
    if HasBit(cs, id, b) && Lookup(cs, id).Some? { BitIsUnique(cs, id, b, Lookup(cs, id).value); }
  }

  /** With distinct bits, pulses on one bit are pulses on one channel. */
  lemma SameBitSameChannel(cs: seq<ChannelInput>, id: nat, id': nat, b: int)
    requires ChannelsOk(cs) && HasBit(cs, id, b) && HasBit(cs, id', b)
    ensures id == id'
  {
  }

  lemma PulseOkIff(cs: seq<ChannelInput>, p: PulseInput)
    requires InRange(cs)
    ensures PulseOk(cs, p) <==> PulseComplete(cs, p)
  {
    LookupFinds(cs, p.channelId);
  }

  /** A resolved pulse has its channel's bit, and covers its duration from its start. */
  lemma ResolvedPulse(cs: seq<ChannelInput>, p: PulseInput)
    requires InRange(cs) && PulseOk(cs, p)
    ensures var q := Resolve(cs, p);
      HasBit(cs, p.channelId, q.bit) && q.start == p.start.value && q.end == p.start.value + p.duration.value
  {
    LookupFinds(cs, p.channelId);
  }

  lemma SameChannelIff(cs: seq<ChannelInput>, p: PulseInput, q: PulseInput)
    requires ChannelsOk(cs) && PulseOk(cs, p) && PulseOk(cs, q)
    ensures Resolve(cs, p).bit == Resolve(cs, q).bit <==> p.channelId == q.channelId
    ensures Apart(Resolve(cs, p), Resolve(cs, q)) <==> OneAfterTheOther(p, q)
  {
    ResolvedPulse(cs, p);
    ResolvedPulse(cs, q);
    if Resolve(cs, p).bit == Resolve(cs, q).bit {
      SameBitSameChannel(cs, p.channelId, q.channelId, Resolve(cs, p).bit);
    }
  }

  lemma PulsesOkIff(cs: seq<ChannelInput>, ps: seq<PulseInput>)
    requires InRange(cs)
    ensures PulsesOk(cs, ps) <==> forall i :: 0 <= i < |ps| ==> PulseComplete(cs, ps[i])
  {
    forall i | 0 <= i < |ps| ensures PulseOk(cs, ps[i]) <==> PulseComplete(cs, ps[i]) { PulseOkIff(cs, ps[i]); }
    assert forall i :: 0 <= i < |ps| ==> ps[i] in ps;
  }

  lemma ResolvedAt(cs: seq<ChannelInput>, ps: seq<PulseInput>, i: nat, j: nat)
    requires ChannelsOk(cs) && PulsesOk(cs, ps) && i < |ps| && j < |ps|
    ensures ps[i] in ps && ps[j] in ps
    ensures var p, q := Resolved(cs, ps)[i], Resolved(cs, ps)[j];
      (p.bit == q.bit <==> ps[i].channelId == ps[j].channelId) && (Apart(p, q) <==> OneAfterTheOther(ps[i], ps[j]))
  {
    SameChannelIff(cs, ps[i], ps[j]);
  }

  lemma ChannelsApartIff(cs: seq<ChannelInput>, ps: seq<PulseInput>)
    requires ChannelsOk(cs) && PulsesOk(cs, ps)
    ensures forall i :: 0 <= i < |ps| ==> PulseComplete(cs, ps[i])
    ensures ChannelsApart(ps) <==> Disjoint(Resolved(cs, ps))
  {
    var rs := Resolved(cs, ps);
    PulsesOkIff(cs, ps);
    ResolvedNonEmpty(cs, ps);
    assert forall i :: 0 <= i < |rs| ==> rs[i] in rs;
    if ChannelsApart(ps) {
      forall i, j | 0 <= i < |rs| && 0 <= j < |rs| && i != j && rs[i].bit == rs[j].bit ensures Apart(rs[i], rs[j]) {
        ResolvedAt(cs, ps, i, j);
      }
    } else {
      var i, j :| 0 <= i < |ps| && 0 <= j < |ps| && i != j && ps[i].channelId == ps[j].channelId
        && !OneAfterTheOther(ps[i], ps[j]);
      ResolvedAt(cs, ps, i, j);
    }
  }

  /** The page's tables decide what the fields say. */
  lemma TimelineOkIff(cs: seq<ChannelInput>, ps: seq<PulseInput>)
    requires ChannelsOk(cs) && PulsesOk(cs, ps)
    ensures TimelineOk(cs, ps) <==> ps != [] && Disjoint(Resolved(cs, ps))
  {
    ChannelsApartIff(cs, ps);
  }

  /** A bit is active at a cycle exactly if some pulse of the form asks for it. */
  lemma ActiveIffWanted(cs: seq<ChannelInput>, ps: seq<PulseInput>, b: nat, t: int)
    requires InRange(cs) && PulsesOk(cs, ps)
    ensures b in Active(Resolved(cs, ps), t) <==> Wanted(cs, ps, b, t)
  {
    var rs := Resolved(cs, ps);
    if b in Active(rs, t) {
      var i :| 0 <= i < |rs| && rs[i].bit == b && rs[i].start <= t < rs[i].end;
      assert ps[i] in ps;
      ResolvedPulse(cs, ps[i]);
      assert Drives(cs, ps[i], b, t);
    }
    if p :| p in ps && Drives(cs, p, b, t) {
      var i :| 0 <= i < |ps| && ps[i] == p;
      ResolvedPulse(cs, p);
      LookupIff(cs, p.channelId, b);
      assert rs[i] in rs && rs[i] == Resolve(cs, p);
    }
  }

  /** Only bits of the form's channels are asked for. */
  lemma WantedIsOwned(cs: seq<ChannelInput>, ps: seq<PulseInput>, b: nat, t: int)
    requires InRange(cs) && Wanted(cs, ps, b, t)
    ensures b in OwnedBits(cs)
  {
    var p :| p in ps && Drives(cs, p, b, t);
    var i :| 0 <= i < |cs| && cs[i].id == p.channelId && cs[i].bit == Some(b);
    assert cs[i] in cs;
  }

  method CheckChannels(cs: seq<ChannelInput>) returns (ok: bool, owned: Mask)
    ensures ok <==> ChannelsOk(cs)
    ensures ok ==> owned == OwnedBits(cs)
  {
    ok, owned := cs != [], {};
    for k := 0 to |cs|
      invariant ok <==> cs != [] && (k == 0 || ChannelsOk(cs[..k]))
      invariant ok ==> owned == OwnedBits(cs[..k])
    {
      var c := cs[k];
      assert cs[..k + 1] == cs[..k] + [c];
      OneMoreChannel(cs[..k], c);
      if !c.named { ok := false; }
      if !BitInRange(c) || c.bit.value in owned {
        ok := false;
        continue;
      }
      owned := owned + {c.bit.value};
    }
    assert cs[..|cs|] == cs;
  }

  lemma OneMoreChannel(cs: seq<ChannelInput>, c: ChannelInput)
    ensures BitInRange(c) ==> OwnedBits(cs + [c]) == OwnedBits(cs) + {c.bit.value as nat}
    ensures (cs == [] || ChannelsOk(cs)) ==>
      (ChannelsOk(cs + [c]) <==> c.named && BitInRange(c) && (c.bit.value as nat) !in OwnedBits(cs))
    ensures ChannelsOk(cs + [c]) ==> cs == [] || ChannelsOk(cs)
  {
    var t := cs + [c];
    assert c in t && (forall x :: x in cs ==> x in t) && t[|cs|] == c;
    assert forall i :: 0 <= i < |cs| ==> t[i] == cs[i] && cs[i] in cs;
  }

  lemma LastPulse(cs: seq<ChannelInput>, ps: seq<PulseInput>, p: PulseInput)
    ensures PulsesOk(cs, ps + [p]) <==> PulsesOk(cs, ps) && PulseOk(cs, p)
    ensures PulsesOk(cs, ps + [p]) ==> Resolved(cs, ps + [p]) == Resolved(cs, ps) + [Resolve(cs, p)]
  {
    var t := ps + [p];
    assert p in t && forall x :: x in ps ==> x in t;
    if PulsesOk(cs, t) {
      assert forall i :: 0 <= i < |ps| ==> t[i] == ps[i] && ps[i] in ps;
    }
  }

  lemma ResolvedNonEmpty(cs: seq<ChannelInput>, ps: seq<PulseInput>)
    requires PulsesOk(cs, ps)
    ensures NonEmpty(Resolved(cs, ps))
  {
    var s := Resolved(cs, ps);
    forall p | p in s ensures p.start < p.end {
      var i :| 0 <= i < |s| && s[i] == p;
      assert ps[i] in ps;
    }
  }

  method ResolvePulses(cs: seq<ChannelInput>, ps: seq<PulseInput>) returns (ok: bool, pulses: seq<Pulse>)
    ensures ok <==> PulsesOk(cs, ps)
    ensures ok ==> pulses == Resolved(cs, ps)
    ensures InRange(cs) ==> (ok <==> forall i :: 0 <= i < |ps| ==> PulseComplete(cs, ps[i]))
    ensures ok && InRange(cs) ==> |pulses| == |ps| && forall i :: 0 <= i < |ps| ==>
      && HasBit(cs, ps[i].channelId, pulses[i].bit) && pulses[i].start == ps[i].start.value
      && pulses[i].end == ps[i].start.value + ps[i].duration.value
  {
    ok, pulses := true, [];
    for k := 0 to |ps|
      invariant ok <==> PulsesOk(cs, ps[..k])
      invariant ok ==> pulses == Resolved(cs, ps[..k])
    {
      assert ps[..k + 1] == ps[..k] + [ps[k]];
      LastPulse(cs, ps[..k], ps[k]);
      if PulseOk(cs, ps[k]) {
        pulses := pulses + [Resolve(cs, ps[k])];
      } else {
        ok := false;
      }
    }
    assert ps[..|ps|] == ps;
    if InRange(cs) {
      PulsesOkIff(cs, ps);
      forall i | 0 <= i < |ps| && PulseOk(cs, ps[i])
        ensures HasBit(cs, ps[i].channelId, Resolve(cs, ps[i]).bit)
      {
        ResolvedPulse(cs, ps[i]);
      }
      assert forall i :: 0 <= i < |ps| ==> ps[i] in ps;
    }
  }

  /** `validateTimeline`: accepts exactly the well-formed timelines. */
  method Validate(cs: seq<ChannelInput>, ps: seq<PulseInput>) returns (ok: bool, pulses: seq<Pulse>, owned: Mask)
    ensures ok <==> TimelineOk(cs, ps)
    ensures ok ==> PulsesOk(cs, ps) && pulses == Resolved(cs, ps) && owned == OwnedBits(cs)
  {
    var channelsOk, pulsesOk;
    channelsOk, owned := CheckChannels(cs);
    pulsesOk, pulses := ResolvePulses(cs, ps);
    ok := channelsOk && ps != [] && pulsesOk;
    if pulsesOk {
      ResolvedNonEmpty(cs, ps);
      SortedCheckIsExact(pulses);
      ok := ok && forall p :: p in pulses ==> Chained(SortByStart(OnBit(pulses, p.bit)));
    }
    if channelsOk {
      PulsesOkIff(cs, ps);
      if pulsesOk { TimelineOkIff(cs, ps); }
    }
  }

  /** The output the form asks for: owned bits where a pulse says so, all others as they were. */
  ghost predicate AsAsked(out: seq<Mask>, cs: seq<ChannelInput>, ps: seq<PulseInput>, tracked: Mask)
  {
    forall t, b: nat :: 0 <= t < |out| ==>
      (b in out[t] <==> if b in OwnedBits(cs) then Wanted(cs, ps, b, t) else b in tracked)
  }

  /** The end of the last pulse. */
  ghost predicate LastEnd(ps: seq<PulseInput>, total: nat)
    requires forall i :: 0 <= i < |ps| ==> ps[i].start.Some? && ps[i].duration.Some?
  {
    && (forall i :: 0 <= i < |ps| ==> ps[i].start.value + ps[i].duration.value <= total)
    && exists i :: 0 <= i < |ps| && ps[i].start.value + ps[i].duration.value == total
  }

  lemma IdealIsAsAsked(cs: seq<ChannelInput>, ps: seq<PulseInput>, tracked: Mask, n: nat)
    requires ChannelsOk(cs) && PulsesOk(cs, ps)
    ensures AsAsked(Ideal(Resolved(cs, ps), tracked - OwnedBits(cs), n), cs, ps, tracked)
  {
    var out := Ideal(Resolved(cs, ps), tracked - OwnedBits(cs), n);
    forall t, b: nat | 0 <= t < n
      ensures b in out[t] <==> if b in OwnedBits(cs) then Wanted(cs, ps, b, t) else b in tracked
    {
      ActiveIffWanted(cs, ps, b, t);
      if Wanted(cs, ps, b, t) { WantedIsOwned(cs, ps, b, t); }
    }
  }

  lemma EndsAtLast(cs: seq<ChannelInput>, ps: seq<PulseInput>, total: nat)
    requires TimelineOk(cs, ps) && PulsesOk(cs, ps)
    requires exists p :: p in Resolved(cs, ps) && p.end == total
    requires forall t: int :: t >= total ==> Active(Resolved(cs, ps), t) == {}
    ensures LastEnd(ps, total)
  {
    var rs := Resolved(cs, ps);
    var i :| 0 <= i < |rs| && rs[i].end == total;
    ResolvedPulse(cs, ps[i]);
    forall j | 0 <= j < |ps| ensures ps[j].start.value + ps[j].duration.value <= total {
      ResolvedPulse(cs, ps[j]);
      var last := rs[j].end - 1;
      assert rs[j] in rs && rs[j].bit in Active(rs, last);
    }
  }

  /**
    The whole of `compileTimeline`: it refuses exactly the malformed timelines and those compiled
    before the first status arrives; otherwise the records expand to the output the form asks for,
    up to the end of the last pulse.
  */
  method CompileTimeline(cs: seq<ChannelInput>, ps: seq<PulseInput>, tracked: Option<Mask>)
    returns (r: Result<(seq<Record>, nat)>)
    ensures r.Ok? <==> TimelineOk(cs, ps) && tracked.Some?
    ensures r.Ok? ==> var (records, total) := r.value;
      && Minimal(records) && total > 0 && |Expand(records)| == total
      && AsAsked(Expand(records), cs, ps, tracked.value) && LastEnd(ps, total)
  {
    var ok, pulses, owned := Validate(cs, ps);
    if !ok || tracked.None? { return Err; }
    TimelineOkIff(cs, ps);
    var records, total := Compile(pulses, tracked.value, owned);
    IdealIsAsAsked(cs, ps, tracked.value, total);
    EndsAtLast(cs, ps, total);
    return Ok((records, total));
  }
}
