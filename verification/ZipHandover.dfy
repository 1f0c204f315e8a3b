/**
  What becomes of an item that a producer hands in: it is blocked while the zipper runs and the
  queue is full, and it is turned away only by a zipper that is stopping.
*/
module ZipHandover {
  import opened Wrappers
  import opened ZipAggregator
  import opened ZipProtocol

  /** Thread t is inside its submit call with item x. */
  predicate Holds<T(==)>(p: Producers<T>, t: Tid, x: T)
  {
    (t in p.ready && p.ready[t] == x) || (t in p.asleep && p.asleep[t] == x)
  }

  /** The call of thread t returned, and its item is the next accepted one. */
  ghost predicate TakenIn<T>(p: Producers<T>, q: seq<T>, p': Producers<T>, q': seq<T>, t: Tid, x: T)
  {
    IdleThread(p', t) && p'.accepted == p.accepted + [x] && q' == q + [x]
  }

  /** The call of thread t returned, and its item was not used. */
  ghost predicate TurnedAway<T>(p: Producers<T>, q: seq<T>, p': Producers<T>, q': seq<T>, t: Tid)
  {
    IdleThread(p', t) && p'.accepted == p.accepted && q' == q
  }

  /** The call of thread t goes on, blocked, with item x. */
  ghost predicate Blocked<T>(p: Producers<T>, q: seq<T>, p': Producers<T>, q': seq<T>, t: Tid, x: T)
  {
    t in p'.asleep && p'.asleep[t] == x && t !in p'.ready && p'.accepted == p.accepted && q' == q
  }

  // ----- one attempt

  /** A submit call that has the lock blocks exactly on a full queue of a running zipper. */
  lemma AttemptA<A, B, E>(max: nat, r: Run<A, B, E>, k: nat, t: Tid)
    requires IsRun(max, r) && k < |r.steps| && r.steps[k] == TryA(t)
    ensures t in r.states[k].a.ready
    ensures var s, s', x := r.states[k], r.states[k + 1], r.states[k].a.ready[t];
      && (Blocked(s.a, s.sh.qa, s'.a, s'.sh.qa, t, x) <==> !s.sh.stopping && |s.sh.qa| == max)
      && (TakenIn(s.a, s.sh.qa, s'.a, s'.sh.qa, t, x) <==> !s.sh.stopping && |s.sh.qa| < max)
      && (TurnedAway(s.a, s.sh.qa, s'.a, s'.sh.qa, t) <==> s.sh.stopping)
      && s'.sh == s.sh.(qa := s'.sh.qa) && s'.b == s.b && s'.worker == s.worker
  {
    RunInv(max, r, k);
    assert StepAt(max, r, k);
  }

  lemma AttemptB<A, B, E>(max: nat, r: Run<A, B, E>, k: nat, t: Tid)
    requires IsRun(max, r) && k < |r.steps| && r.steps[k] == TryB(t)
    ensures t in r.states[k].b.ready
    ensures var s, s', x := r.states[k], r.states[k + 1], r.states[k].b.ready[t];
      && (Blocked(s.b, s.sh.qb, s'.b, s'.sh.qb, t, x) <==> !s.sh.stopping && |s.sh.qb| == max)
      && (TakenIn(s.b, s.sh.qb, s'.b, s'.sh.qb, t, x) <==> !s.sh.stopping && |s.sh.qb| < max)
      && (TurnedAway(s.b, s.sh.qb, s'.b, s'.sh.qb, t) <==> s.sh.stopping)
      && s'.sh == s.sh.(qb := s'.sh.qb) && s'.a == s.a && s'.worker == s.worker
  {
    RunInv(max, r, k);
    assert StepAt(max, r, k);
  }

  // ----- from the call on

  ghost predicate AcceptedAtA<A, B, E>(max: nat, r: Run<A, B, E>, k: nat, t: Tid, x: A)
    requires IsRun(max, r) && k < |r.steps|
  {
    var s, s' := r.states[k], r.states[k + 1];
    !s.sh.stopping && TakenIn(s.a, s.sh.qa, s'.a, s'.sh.qa, t, x)
  }

  ghost predicate RefusedAtA<A, B, E>(max: nat, r: Run<A, B, E>, k: nat, t: Tid)
    requires IsRun(max, r) && k < |r.steps|
  {
    var s, s' := r.states[k], r.states[k + 1];
    s.sh.stopping && TurnedAway(s.a, s.sh.qa, s'.a, s'.sh.qa, t)
  }

  ghost predicate AcceptedAtB<A, B, E>(max: nat, r: Run<A, B, E>, k: nat, t: Tid, x: B)
    requires IsRun(max, r) && k < |r.steps|
  {
    var s, s' := r.states[k], r.states[k + 1];
    !s.sh.stopping && TakenIn(s.b, s.sh.qb, s'.b, s'.sh.qb, t, x)
  }

  ghost predicate RefusedAtB<A, B, E>(max: nat, r: Run<A, B, E>, k: nat, t: Tid)
    requires IsRun(max, r) && k < |r.steps|
  {
    var s, s' := r.states[k], r.states[k + 1];
    s.sh.stopping && TurnedAway(s.b, s.sh.qb, s'.b, s'.sh.qb, t)
  }

  lemma TryKeepsOthers<T>(p: Producers<T>, u: Tid, v: Verdict, t: Tid, x: T)
    requires Holds(p, t, x) && p.ready.Keys !! p.asleep.Keys && u in p.ready && u != t
    ensures Holds(TryPush(p, u, v), t, x)
  {
  }

  lemma WakeOneKeeps<T>(p: Producers<T>, w: Option<Tid>, t: Tid, x: T)
    requires Holds(p, t, x) && p.ready.Keys !! p.asleep.Keys && (w.Some? ==> w.value in p.asleep)
    ensures Holds(WakeOne(p, w), t, x)
  {
  }

  lemma WakeAllKeeps<T>(p: Producers<T>, t: Tid, x: T)
    requires Holds(p, t, x) && p.ready.Keys !! p.asleep.Keys
    ensures Holds(WakeAll(p), t, x)
  {
  }

  /** Only its own attempts take an item from its thread. */
  lemma OthersKeepA<A, B, E>(max: nat, s: State<A, B, E>, step: Step<A, B, E>, t: Tid, x: A)
    requires Inv(max, s) && Enabled(s, step) && Holds(s.a, t, x) && step != TryA(t)
    ensures Holds(Apply(max, s, step).a, t, x)
  {
    var p, p' := s.a, Apply(max, s, step).a;
    match step
    case CallA(_, _) =>
    case TryA(u) => TryKeepsOthers(p, u, Admission(|s.sh.qa|, max, s.sh.stopping), t, x);
    case SpuriousA(u) => WakeOneKeeps(p, Some(u), t, x);
    case WorkerTurn(ta, tb) => if WorkerDecision(s.sh).Take? { WakeOneKeeps(p, ta, t, x); }
    case StopNotify => WakeAllKeeps(p, t, x);
    case FailNotify => WakeAllKeeps(p, t, x);
    case _ => assert p' == p;
  }

  lemma OthersKeepB<A, B, E>(max: nat, s: State<A, B, E>, step: Step<A, B, E>, t: Tid, x: B)
    requires Inv(max, s) && Enabled(s, step) && Holds(s.b, t, x) && step != TryB(t)
    ensures Holds(Apply(max, s, step).b, t, x)
  {
    var p, p' := s.b, Apply(max, s, step).b;
    match step
    case CallB(_, _) =>
    case TryB(u) => TryKeepsOthers(p, u, Admission(|s.sh.qb|, max, s.sh.stopping), t, x);
    case SpuriousB(u) => WakeOneKeeps(p, Some(u), t, x);
    case WorkerTurn(ta, tb) => if WorkerDecision(s.sh).Take? { WakeOneKeeps(p, tb, t, x); }
    case StopNotify => WakeAllKeeps(p, t, x);
    case FailNotify => WakeAllKeeps(p, t, x);
    case _ => assert p' == p;
  }

  lemma HeldOnA<A, B, E>(max: nat, r: Run<A, B, E>, k: nat, t: Tid, x: A)
    requires IsRun(max, r) && k < |r.steps| && Holds(r.states[k].a, t, x)
    ensures Holds(r.states[k + 1].a, t, x) || AcceptedAtA(max, r, k, t, x) || RefusedAtA(max, r, k, t)
  {
    RunInv(max, r, k);
    assert StepAt(max, r, k);
    if r.steps[k] == TryA(t) {
      AttemptA(max, r, k, t);
    } else {
      OthersKeepA(max, r.states[k], r.steps[k], t, x);
    }
  }

  lemma HeldOnB<A, B, E>(max: nat, r: Run<A, B, E>, k: nat, t: Tid, x: B)
    requires IsRun(max, r) && k < |r.steps| && Holds(r.states[k].b, t, x)
    ensures Holds(r.states[k + 1].b, t, x) || AcceptedAtB(max, r, k, t, x) || RefusedAtB(max, r, k, t)
  {
    RunInv(max, r, k);
    assert StepAt(max, r, k);
    if r.steps[k] == TryB(t) {
      AttemptB(max, r, k, t);
    } else {
      OthersKeepB(max, r.states[k], r.steps[k], t, x);
    }
  }

  /**
    An item handed in is still with its thread, or it has been accepted, or its call was turned
    away by a zipper that was already stopping.
  */
  lemma {:induction false} HandedInA<A, B, E>(max: nat, r: Run<A, B, E>, i: nat, j: nat, t: Tid, x: A)
    requires IsRun(max, r) && i < j < |r.states| && r.steps[i] == CallA(t, x)
    ensures Holds(r.states[j].a, t, x)
      || exists k :: i < k < j && (AcceptedAtA(max, r, k, t, x) || RefusedAtA(max, r, k, t))
    decreases j
  {
    if j == i + 1 {
      assert StepAt(max, r, i);
    } else {
      HandedInA(max, r, i, j - 1, t, x);
      if Holds(r.states[j - 1].a, t, x) { HeldOnA(max, r, j - 1, t, x); }
    }
  }

  lemma {:induction false} HandedInB<A, B, E>(max: nat, r: Run<A, B, E>, i: nat, j: nat, t: Tid, x: B)
    requires IsRun(max, r) && i < j < |r.states| && r.steps[i] == CallB(t, x)
    ensures Holds(r.states[j].b, t, x)
      || exists k :: i < k < j && (AcceptedAtB(max, r, k, t, x) || RefusedAtB(max, r, k, t))
    decreases j
  {
    if j == i + 1 {
      assert StepAt(max, r, i);
    } else {
      HandedInB(max, r, i, j - 1, t, x);
      if Holds(r.states[j - 1].b, t, x) { HeldOnB(max, r, j - 1, t, x); }
    }
  }

  /** While the zipper runs, an item handed in is still with its thread or accepted: none is lost. */
  lemma NoneLostA<A, B, E>(max: nat, r: Run<A, B, E>, i: nat, j: nat, t: Tid, x: A)
    requires IsRun(max, r) && i < j < |r.states| && r.steps[i] == CallA(t, x) && !r.states[j].sh.stopping
    ensures Holds(r.states[j].a, t, x) || exists k :: i < k < j && AcceptedAtA(max, r, k, t, x)
  {
    HandedInA(max, r, i, j, t, x);
    if k :| i < k < j && (AcceptedAtA(max, r, k, t, x) || RefusedAtA(max, r, k, t)) { StoppingIsFinal(max, r, k, j); }
  }

  lemma NoneLostB<A, B, E>(max: nat, r: Run<A, B, E>, i: nat, j: nat, t: Tid, x: B)
    requires IsRun(max, r) && i < j < |r.states| && r.steps[i] == CallB(t, x) && !r.states[j].sh.stopping
    ensures Holds(r.states[j].b, t, x) || exists k :: i < k < j && AcceptedAtB(max, r, k, t, x)
  {
    HandedInB(max, r, i, j, t, x);
    if k :| i < k < j && (AcceptedAtB(max, r, k, t, x) || RefusedAtB(max, r, k, t)) { StoppingIsFinal(max, r, k, j); }
  }

  /** `stop(false)` before any other stop: no pair is taken any more. */
  lemma StopWithoutDrain<A, B, E>(max: nat, r: Run<A, B, E>, i: nat, j: nat)
    requires IsRun(max, r) && i < |r.steps| && i < j < |r.states|
    requires r.steps[i] == Stop(false) && !r.states[i].sh.stopping
    ensures r.states[j].pairs == r.states[i].pairs && r.states[j].sh.stopping && !r.states[j].sh.drain
  {
    assert StepAt(max, r, i);
    StoppingIsFinal(max, r, i + 1, j);
  }
}
