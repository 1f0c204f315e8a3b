/** Running a state machine over a list of inputs, and filtering a list. */
module Scan {
  /** The outputs, in order, of a machine with transition `next` and output `emit`. */
  ghost function Outputs<S, T, O>(next: (S, T) -> S, emit: (S, T) -> seq<O>, v: S, s: seq<T>): seq<O>
    decreases s
  {
    if s == [] then [] else emit(v, s[0]) + Outputs(next, emit, next(v, s[0]), s[1..])
  }

  /** The state it ends in. */
  ghost function End<S, T>(next: (S, T) -> S, v: S, s: seq<T>): S
    decreases s
  {
    if s == [] then v else End(next, next(v, s[0]), s[1..])
  }

  lemma {:induction false} ScanConcat<S, T, O>(next: (S, T) -> S, emit: (S, T) -> seq<O>, v: S, s: seq<T>, t: seq<T>)
    ensures Outputs(next, emit, v, s + t) == Outputs(next, emit, v, s) + Outputs(next, emit, End(next, v, s), t)
    decreases s
  {
    if s == [] {
      assert s + t == t;
    } else {
      assert (s + t)[1..] == s[1..] + t;
      ScanConcat(next, emit, next(v, s[0]), s[1..], t);
      assert Outputs(next, emit, v, s + t) == emit(v, s[0]) + Outputs(next, emit, next(v, s[0]), s[1..] + t);
    }
  }

  lemma {:induction false} EndConcat<S, T>(next: (S, T) -> S, v: S, s: seq<T>, t: seq<T>)
    ensures End(next, v, s + t) == End(next, End(next, v, s), t)
    decreases s
  {
    if s == [] {
      assert s + t == t;
    } else {
      assert (s + t)[1..] == s[1..] + t;
      EndConcat(next, next(v, s[0]), s[1..], t);
    }
  }

  lemma ScanOne<S, T, O>(next: (S, T) -> S, emit: (S, T) -> seq<O>, v: S, x: T)
    ensures Outputs(next, emit, v, [x]) == emit(v, x) && End(next, v, [x]) == next(v, x)
  {
    assert [x][1..] == [];
  }

  lemma EndOne<S, T>(next: (S, T) -> S, v: S, x: T)
    ensures End(next, v, [x]) == next(v, x)
  {
    assert [x][1..] == [];
  }

  /** Replacing two inputs by one that acts as both changes nothing. */
  lemma JoinFirst<S, T, O>(next: (S, T) -> S, emit: (S, T) -> seq<O>, v: S, x: T, y: T, z: T, rest: seq<T>)
    requires emit(v, z) == emit(v, x) + emit(next(v, x), y) && next(v, z) == next(next(v, x), y)
    ensures Outputs(next, emit, v, [z] + rest) == Outputs(next, emit, v, [x] + ([y] + rest))
  {
    FirstAndRest(z, rest);
    FirstAndRest(y, rest);
    FirstAndRest(x, [y] + rest);
    Regroup(emit(v, x), emit(next(v, x), y), Outputs(next, emit, next(v, z), rest));
  }

  ghost function Filter<T>(p: T -> bool, s: seq<T>): seq<T>
  {
    if s == [] then [] else (if p(s[0]) then [s[0]] else []) + Filter(p, s[1..])
  }

  lemma {:induction false} FilterConcat<T>(p: T -> bool, s: seq<T>, t: seq<T>)
    ensures Filter(p, s + t) == Filter(p, s) + Filter(p, t)
  {
    if s == [] {
      assert s + t == t;
    } else {
      assert (s + t)[1..] == s[1..] + t;
      FilterConcat(p, s[1..], t);
      var head := if p(s[0]) then [s[0]] else [];
      assert Filter(p, s) == head + Filter(p, s[1..]);
      assert Filter(p, s + t) == head + Filter(p, s[1..] + t);
    }
  }

  lemma FilterOne<T>(p: T -> bool, x: T)
    ensures Filter(p, [x]) == if p(x) then [x] else []
  {
    assert [x][1..] == [];
  }

  lemma {:induction false} FilterAll<T>(p: T -> bool, s: seq<T>)
    requires forall x :: x in s ==> p(x)
    ensures Filter(p, s) == s
  {
    if s != [] {
      FilterAll(p, s[1..]);
      assert s[0] in s && [s[0]] + s[1..] == s;
    }
  }

  lemma {:induction false} FilterLength<T>(p: T -> bool, s: seq<T>)
    ensures |Filter(p, s)| <= |s|
  {
    if s != [] { FilterLength(p, s[1..]); }
  }

  /** Filtering changes nothing exactly if everything passes. */
  lemma {:induction false} FilterAllIff<T>(p: T -> bool, s: seq<T>)
    ensures Filter(p, s) == s <==> forall i :: 0 <= i < |s| ==> p(s[i])
  {
    if s != [] {
      FilterAllIff(p, s[1..]);
      FilterLength(p, s[1..]);
      assert forall i :: 0 <= i < |s[1..]| ==> s[1..][i] == s[i + 1];
      if p(s[0]) {
        assert Filter(p, s) == [s[0]] + Filter(p, s[1..]);
        assert Filter(p, s)[1..] == Filter(p, s[1..]);
        assert [s[0]] + s[1..] == s;
      }
    }
  }

  ghost predicate IsPrefix<T>(a: seq<T>, b: seq<T>) { |a| <= |b| && a == b[..|a|] }

  lemma Regroup<T>(a: seq<T>, b: seq<T>, c: seq<T>)
    ensures (a + b) + c == a + (b + c)
  {
  }

  lemma FirstAndRest<T>(x: T, s: seq<T>)
    ensures ([x] + s)[0] == x && ([x] + s)[1..] == s
  {
  }
}
