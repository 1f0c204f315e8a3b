/**
  The two-queue zipper: producers push into two bounded queues, one worker pops a pair at a
  time and runs a task on it outside the lock.

  `Shared` holds the fields the mutex guards, and the `...Region` functions say what each
  lock-protected region does to them. Class `Aggregator` has those fields and is proved to run
  exactly these regions. Module `ZipProtocol` interleaves the regions with the notifications.
*/
module ZipAggregator {
  import opened Wrappers

  datatype Shared<A, B, E> = Shared(
    qa: seq<A>, qb: seq<B>, stopping: bool, drain: bool, failure: Option<E>)

  datatype Verdict = Wait | Refused | Accepted

  /** What the region after the wait in a submit call decides for a queue of length `len`. */
  function Admission(len: nat, maxDepth: nat, stopping: bool): Verdict
  {
    if stopping then Refused else if len < maxDepth then Accepted else Wait
  }

  datatype WorkerVerdict<A, B> = Sleep | Exit | Take(a: A, b: B)

  /** The predicate the worker passes to its wait. */
  predicate WakeCondition<A, B, E>(sh: Shared<A, B, E>)
  {
    (|sh.qa| > 0 && |sh.qb| > 0) || sh.stopping
  }

  function WorkerDecision<A, B, E>(sh: Shared<A, B, E>): WorkerVerdict<A, B>
  {
    if !WakeCondition(sh) then Sleep
    else if sh.stopping && (!sh.drain || sh.qa == [] || sh.qb == []) then Exit
    else Take(sh.qa[0], sh.qb[0])
  }

  function WorkerRegion<A, B, E>(sh: Shared<A, B, E>): Shared<A, B, E>
  {
    if WorkerDecision(sh).Take? then sh.(qa := sh.qa[1..], qb := sh.qb[1..]) else sh
  }

  function StopRegion<A, B, E>(sh: Shared<A, B, E>, drain: bool): Shared<A, B, E>
  {
    if sh.stopping then sh else sh.(stopping := true, drain := drain)
  }

  function FailRegion<A, B, E>(sh: Shared<A, B, E>, e: E): Shared<A, B, E>
  {
    sh.(failure := if sh.failure.None? then Some(e) else sh.failure, stopping := true, drain := false)
  }

  /** The guarded fields, with one method per lock-protected region. */
  class Aggregator<A, B, E> {
    const maxDepth: nat
    var qa: seq<A>
    var qb: seq<B>
    var stopping: bool
    var drain: bool
    var failure: Option<E>

    ghost function State(): (sh: Shared<A, B, E>)
      reads this
    {
      Shared(qa, qb, stopping, drain, failure)
    }

    constructor (maxDepth: nat)
      ensures this.maxDepth == maxDepth
      ensures State() == Shared([], [], false, true, None)
    {
      this.maxDepth := maxDepth;
      qa, qb, stopping, drain, failure := [], [], false, true, None;
    }

    method SubmitA(a: A) returns (v: Verdict)
      modifies this`qa
      ensures v.Wait? <==> !stopping && |old(qa)| >= maxDepth
      ensures v.Accepted? <==> !stopping && |old(qa)| < maxDepth
      ensures v == Admission(|old(qa)|, maxDepth, stopping)
      ensures State() == if v.Accepted? then old(State()).(qa := old(qa) + [a]) else old(State())
    {
      if !(stopping || |qa| < maxDepth) { return Wait; }
      if stopping { return Refused; }
      qa := qa + [a];
      return Accepted;
    }

    method SubmitB(b: B) returns (v: Verdict)
      modifies this`qb
      ensures v.Wait? <==> !stopping && |old(qb)| >= maxDepth
      ensures v.Accepted? <==> !stopping && |old(qb)| < maxDepth
      ensures v == Admission(|old(qb)|, maxDepth, stopping)
      ensures State() == if v.Accepted? then old(State()).(qb := old(qb) + [b]) else old(State())
    {
      if !(stopping || |qb| < maxDepth) { return Wait; }
      if stopping { return Refused; }
      qb := qb + [b];
      return Accepted;
    }

    method Stop(drainArg: bool) returns (notify: bool)
      modifies this`stopping, this`drain
      ensures State() == StopRegion(old(State()), drainArg)
      ensures notify == !old(stopping)
    {
      notify := false;
      if !stopping {
        stopping := true;
        drain := drainArg;
        notify := true;
      }
    }

    method WorkerTurn() returns (v: WorkerVerdict<A, B>)
      modifies this`qa, this`qb
      ensures v == WorkerDecision(old(State()))
      ensures State() == WorkerRegion(old(State()))
    {
      if !((|qa| > 0 && |qb| > 0) || stopping) { return Sleep; }
      if stopping {
        if !drain { return Exit; }
        if qa == [] || qb == [] { return Exit; }
      }
      v := Take(qa[0], qb[0]);
      qa, qb := qa[1..], qb[1..];
    }

    method TaskThrew(e: E)
      modifies this`failure, this`stopping, this`drain
      ensures State() == FailRegion(old(State()), e)
    {
      if failure.None? { failure := Some(e); }
      stopping := true;
      drain := false;
    }
  }
}

/**
  Every interleaving of producers, stop callers, the worker and the notifications they owe.
  Blocked threads may also wake spuriously.
*/
module ZipProtocol {
  import opened Wrappers
  import opened ZipAggregator

  type Tid = nat

  /** The producers of one side: those about to take the lock and those blocked on "full". */
  datatype Producers<T> = Producers(ready: map<Tid, T>, asleep: map<Tid, T>, accepted: seq<T>)

  datatype Worker<A, B> = Ready | Asleep | Busy(a: A, b: B) | Failing(due: nat) | Exited

  /**
    `oneDue` counts producers that have pushed and still owe `cv_not_empty_` a notification.
    `stopDue` and `Failing.due` count what is left of the three broadcasts that a stop and a
    failure send, in the order worker (3), A side (2), B side (1).
    `pairs` records the invocations of the zipper callback and `returned` how many of them returned.
  */
  datatype State<A, B, E> = State(
    sh: Shared<A, B, E>, worker: Worker<A, B>,
    a: Producers<A>, b: Producers<B>,
    oneDue: nat, stopDue: nat,
    pairs: seq<(A, B)>, returned: nat)

  datatype Step<A, B, E> =
    | CallA(ta: Tid, xa: A) | TryA(ta: Tid) | SpuriousA(ta: Tid)
    | CallB(tb: Tid, xb: B) | TryB(tb: Tid) | SpuriousB(tb: Tid)
    | NotifyOne | Stop(drain: bool) | StopNotify
    | WorkerTurn(wokenA: Option<Tid>, wokenB: Option<Tid>) | WorkerSpurious
    | TaskReturns | TaskThrows(e: E) | FailNotify

  ghost predicate Init<A, B, E>(s: State<A, B, E>)
  {
    s == State(Shared([], [], false, true, None), Ready,
               Producers(map[], map[], []), Producers(map[], map[], []), 0, 0, [], 0)
  }

  function WakeAll<T>(p: Producers<T>): Producers<T>
  {
    p.(ready := p.ready + p.asleep, asleep := map[])
  }

  function WakeOne<T>(p: Producers<T>, t: Option<Tid>): Producers<T>
    requires t.Some? ==> t.value in p.asleep
  {
    if t.None? then p
    else p.(ready := p.ready[t.value := p.asleep[t.value]], asleep := p.asleep - {t.value})
  }

  /** One producer runs the region of its submit call. */
  function TryPush<T>(p: Producers<T>, t: Tid, v: Verdict): Producers<T>
    requires t in p.ready
  {
    var x := p.ready[t];
    var p' := p.(ready := p.ready - {t});
    match v
    case Wait => p'.(asleep := p'.asleep[t := x])
    case Refused => p'
    case Accepted => p'.(accepted := p'.accepted + [x])
  }

  predicate IdleThread<T>(p: Producers<T>, t: Tid) { t !in p.ready && t !in p.asleep }

  /** `notify_one` wakes some blocked producer when there is one. */
  predicate PicksOne<T>(p: Producers<T>, t: Option<Tid>)
  {
    if p.asleep == map[] then t == None else t.Some? && t.value in p.asleep
  }

  function Wake<A, B>(w: Worker<A, B>): Worker<A, B>
  {
    if w.Asleep? then Ready else w
  }

  predicate Enabled<A, B, E>(s: State<A, B, E>, step: Step<A, B, E>)
  {
    match step
    case CallA(t, _) => IdleThread(s.a, t)
    case CallB(t, _) => IdleThread(s.b, t)
    case TryA(t) => t in s.a.ready
    case TryB(t) => t in s.b.ready
    case SpuriousA(t) => t in s.a.asleep
    case SpuriousB(t) => t in s.b.asleep
    case NotifyOne => s.oneDue > 0
    case Stop(_) => true
    case StopNotify => s.stopDue > 0
    case WorkerTurn(ta, tb) =>
      s.worker.Ready? &&
      (if WorkerDecision(s.sh).Take? then PicksOne(s.a, ta) && PicksOne(s.b, tb) else ta == tb == None)
    case WorkerSpurious => s.worker.Asleep?
    case TaskReturns => s.worker.Busy?
    case TaskThrows(_) => s.worker.Busy?
    case FailNotify => s.worker.Failing? && s.worker.due > 0
  }

  function Apply<A, B, E>(max: nat, s: State<A, B, E>, step: Step<A, B, E>): State<A, B, E>
    requires Enabled(s, step)
  {
    match step
    case CallA(t, x) => s.(a := s.a.(ready := s.a.ready[t := x]))
    case CallB(t, x) => s.(b := s.b.(ready := s.b.ready[t := x]))
    case TryA(t) =>
      var v := Admission(|s.sh.qa|, max, s.sh.stopping);
      var s' := s.(a := TryPush(s.a, t, v));
      if v.Accepted? then s'.(sh := s.sh.(qa := s.sh.qa + [s.a.ready[t]]), oneDue := s.oneDue + 1) else s'
    case TryB(t) =>
      var v := Admission(|s.sh.qb|, max, s.sh.stopping);
      var s' := s.(b := TryPush(s.b, t, v));
      if v.Accepted? then s'.(sh := s.sh.(qb := s.sh.qb + [s.b.ready[t]]), oneDue := s.oneDue + 1) else s'
    case SpuriousA(t) => s.(a := WakeOne(s.a, Some(t)))
    case SpuriousB(t) => s.(b := WakeOne(s.b, Some(t)))
    case NotifyOne => s.(oneDue := s.oneDue - 1, worker := Wake(s.worker))
    case Stop(drain) =>
      s.(sh := StopRegion(s.sh, drain), stopDue := if s.sh.stopping then s.stopDue else 3)
    case StopNotify =>
      var s' := s.(stopDue := s.stopDue - 1);
      if s.stopDue == 3 then s'.(worker := Wake(s.worker))
      else if s.stopDue == 2 then s'.(a := WakeAll(s.a))
      else s'.(b := WakeAll(s.b))
    case WorkerTurn(ta, tb) =>
      var s' := s.(sh := WorkerRegion(s.sh));
      (match WorkerDecision(s.sh)
       case Sleep => s'.(worker := Asleep)
       case Exit => s'.(worker := Exited)
       case Take(x, y) =>
         s'.(worker := Busy(x, y), a := WakeOne(s.a, ta), b := WakeOne(s.b, tb), pairs := s.pairs + [(x, y)]))
    case WorkerSpurious => s.(worker := Ready)
    case TaskReturns => s.(worker := Ready, returned := s.returned + 1)
    case TaskThrows(e) => s.(sh := FailRegion(s.sh, e), worker := Failing(3))
    case FailNotify =>
      var due := s.worker.due;
      var s' := s.(worker := if due == 1 then Exited else Failing(due - 1));
      if due == 2 then s'.(a := WakeAll(s.a)) else if due == 1 then s'.(b := WakeAll(s.b)) else s'
  }

  /** A run: its states, and the step taken between each two. */
  datatype Run<A, B, E> = Run(states: seq<State<A, B, E>>, steps: seq<Step<A, B, E>>)

  ghost predicate IsRun<A, B, E>(max: nat, r: Run<A, B, E>)
  {
    && |r.states| == |r.steps| + 1
    && Init(r.states[0])
    && forall i :: 0 <= i < |r.steps| ==> StepAt(max, r, i)
  }

  ghost predicate StepAt<A, B, E>(max: nat, r: Run<A, B, E>, i: nat)
    requires i < |r.steps| && i + 1 < |r.states|
  {
    Enabled(r.states[i], r.steps[i]) && r.states[i + 1] == Apply(max, r.states[i], r.steps[i])
  }

  // ----- what every step keeps

  /** The queue is within its bound and holds exactly what was accepted and not yet taken. */
  ghost predicate QueueInv<T>(max: nat, p: Producers<T>, q: seq<T>, taken: nat)
  {
    |q| <= max && taken + |q| == |p.accepted| && p.accepted[taken..] == q
  }

  /**
    No blocked producer is forgotten. While the zipper runs, every free slot has a producer
    on its way to it if any producer is blocked; once it stops, a broadcast is still due.
  */
  ghost predicate BlockedInv<T>(max: nat, p: Producers<T>, len: nat, stopping: bool, broadcastDue: bool)
  {
    && p.ready.Keys !! p.asleep.Keys
    && (p.asleep != map[] && !stopping ==> max - len <= |p.ready|)
    && (p.asleep != map[] && stopping ==> broadcastDue)
  }

  ghost predicate BlockedA<A, B, E>(max: nat, s: State<A, B, E>)
  {
    BlockedInv(max, s.a, |s.sh.qa|, s.sh.stopping, Broadcasting(s, 2))
  }

  ghost predicate BlockedB<A, B, E>(max: nat, s: State<A, B, E>)
  {
    BlockedInv(max, s.b, |s.sh.qb|, s.sh.stopping, Broadcasting(s, 1))
  }

  ghost predicate PairsInv<A, B, E>(s: State<A, B, E>)
  {
    && |s.pairs| <= |s.a.accepted| && |s.pairs| <= |s.b.accepted|
    && forall i :: 0 <= i < |s.pairs| ==> s.pairs[i] == (s.a.accepted[i], s.b.accepted[i])
  }

  ghost predicate WorkerInv<A, B, E>(s: State<A, B, E>)
  {
    && (s.worker.Asleep? && WakeCondition(s.sh) ==> s.oneDue > 0 || s.stopDue == 3)
    && s.stopDue <= 3 && (s.stopDue > 0 ==> s.sh.stopping)
    && (s.worker.Failing? ==> 1 <= s.worker.due <= 3 && s.sh.failure.Some?)
    && (s.sh.failure.Some? ==> s.sh.stopping && !s.sh.drain && (s.worker.Failing? || s.worker.Exited?))
    && (s.worker.Exited? ==> s.sh.stopping && (s.sh.drain ==> s.sh.qa == [] || s.sh.qb == []))
    && (!s.sh.stopping ==> s.sh.drain)
    && |s.pairs| == s.returned + (if s.worker.Busy? || s.sh.failure.Some? then 1 else 0)
    && (s.worker.Busy? ==> |s.pairs| > 0 && s.pairs[|s.pairs| - 1] == (s.worker.a, s.worker.b))
  }

  ghost predicate Broadcasting<A, B, E>(s: State<A, B, E>, n: nat)
  {
    s.stopDue >= n || (s.worker.Failing? && s.worker.due >= n)
  }

  ghost predicate Inv<A, B, E>(max: nat, s: State<A, B, E>)
  {
    && QueueInv(max, s.a, s.sh.qa, |s.pairs|)
    && QueueInv(max, s.b, s.sh.qb, |s.pairs|)
    && PairsInv(s)
    && WorkerInv(s)
    && BlockedA(max, s)
    && BlockedB(max, s)
  }

  lemma RemoveKeySize<T>(m: map<Tid, T>, t: Tid)
    requires t in m
    ensures |m - {t}| == |m| - 1
  {
    assert (m - {t}).Keys == m.Keys - {t};
  }

  lemma AddKeySize<T>(m: map<Tid, T>, t: Tid, x: T)
    ensures |m[t := x]| == if t in m then |m| else |m| + 1
  {
    assert m[t := x].Keys == m.Keys + {t};
  }

  lemma TryKeepsBlocked<T>(max: nat, p: Producers<T>, t: Tid, len: nat, stopping: bool, due: bool)
    requires BlockedInv(max, p, len, stopping, due) && len <= max && t in p.ready
    ensures var v := Admission(len, max, stopping);
      BlockedInv(max, TryPush(p, t, v), if v.Accepted? then len + 1 else len, stopping, due)
  {
    RemoveKeySize(p.ready, t);
  }

  lemma WakeOneKeepsBlocked<T>(max: nat, p: Producers<T>, t: Option<Tid>, len: nat, stopping: bool, due: bool)
    requires BlockedInv(max, p, len, stopping, due)
    requires t.Some? ==> t.value in p.asleep
    ensures BlockedInv(max, WakeOne(p, t), len, stopping, due)
    ensures len > 0 && PicksOne(p, t) ==> BlockedInv(max, WakeOne(p, t), len - 1, stopping, due)
  {
    if t.Some? { AddKeySize(p.ready, t.value, p.asleep[t.value]); }
  }

  lemma ProducersKeepBlockedA<A, B, E>(max: nat, s: State<A, B, E>, step: Step<A, B, E>)
    requires Inv(max, s) && Enabled(s, step) && (step.CallA? || step.TryA? || step.SpuriousA?)
    ensures BlockedA(max, Apply(max, s, step))
  {
    match step
    case CallA(t, x) => AddKeySize(s.a.ready, t, x);
    case TryA(t) => TryKeepsBlocked(max, s.a, t, |s.sh.qa|, s.sh.stopping, Broadcasting(s, 2));
    case SpuriousA(t) => WakeOneKeepsBlocked(max, s.a, Some(t), |s.sh.qa|, s.sh.stopping, Broadcasting(s, 2));
  }

  lemma WorkerKeepsBlockedA<A, B, E>(max: nat, s: State<A, B, E>, ta: Option<Tid>, tb: Option<Tid>)
    requires Inv(max, s) && Enabled(s, WorkerTurn(ta, tb))
    ensures BlockedA(max, Apply(max, s, WorkerTurn(ta, tb)))
  {
    if WorkerDecision(s.sh).Take? {
      WakeOneKeepsBlocked(max, s.a, ta, |s.sh.qa|, s.sh.stopping, Broadcasting(s, 2));
    }
  }

  lemma StepKeepsBlockedA<A, B, E>(max: nat, s: State<A, B, E>, step: Step<A, B, E>)
    requires Inv(max, s) && Enabled(s, step)
    ensures BlockedA(max, Apply(max, s, step))
  {
    match step
    case CallA(_, _) => ProducersKeepBlockedA(max, s, step);
    case TryA(_) => ProducersKeepBlockedA(max, s, step);
    case SpuriousA(_) => ProducersKeepBlockedA(max, s, step);
    case WorkerTurn(ta, tb) => WorkerKeepsBlockedA(max, s, ta, tb);
    case _ =>
  }

  lemma ProducersKeepBlockedB<A, B, E>(max: nat, s: State<A, B, E>, step: Step<A, B, E>)
    requires Inv(max, s) && Enabled(s, step) && (step.CallB? || step.TryB? || step.SpuriousB?)
    ensures BlockedB(max, Apply(max, s, step))
  {
    match step
    case CallB(t, x) => AddKeySize(s.b.ready, t, x);
    case TryB(t) => TryKeepsBlocked(max, s.b, t, |s.sh.qb|, s.sh.stopping, Broadcasting(s, 1));
    case SpuriousB(t) => WakeOneKeepsBlocked(max, s.b, Some(t), |s.sh.qb|, s.sh.stopping, Broadcasting(s, 1));
  }

  lemma WorkerKeepsBlockedB<A, B, E>(max: nat, s: State<A, B, E>, ta: Option<Tid>, tb: Option<Tid>)
    requires Inv(max, s) && Enabled(s, WorkerTurn(ta, tb))
    ensures BlockedB(max, Apply(max, s, WorkerTurn(ta, tb)))
  {
    if WorkerDecision(s.sh).Take? {
      WakeOneKeepsBlocked(max, s.b, tb, |s.sh.qb|, s.sh.stopping, Broadcasting(s, 1));
    }
  }

  lemma StepKeepsBlockedB<A, B, E>(max: nat, s: State<A, B, E>, step: Step<A, B, E>)
    requires Inv(max, s) && Enabled(s, step)
    ensures BlockedB(max, Apply(max, s, step))
  {
    match step
    case CallB(_, _) => ProducersKeepBlockedB(max, s, step);
    case TryB(_) => ProducersKeepBlockedB(max, s, step);
    case SpuriousB(_) => ProducersKeepBlockedB(max, s, step);
    case WorkerTurn(ta, tb) => WorkerKeepsBlockedB(max, s, ta, tb);
    case _ =>
  }

  lemma TakeKeepsQueue<T>(max: nat, p: Producers<T>, q: seq<T>, taken: nat, t: Option<Tid>)
    requires QueueInv(max, p, q, taken) && q != []
    requires t.Some? ==> t.value in p.asleep
    ensures QueueInv(max, WakeOne(p, t), q[1..], taken + 1)
    ensures p.accepted[taken] == q[0]
  {
    assert p.accepted[taken + 1..] == p.accepted[taken..][1..];
  }

  lemma PushKeepsQueue<T>(max: nat, p: Producers<T>, q: seq<T>, taken: nat, t: Tid, v: Verdict)
    requires QueueInv(max, p, q, taken) && t in p.ready
    requires v.Accepted? ==> |q| < max
    ensures QueueInv(max, TryPush(p, t, v), if v.Accepted? then q + [p.ready[t]] else q, taken)
  {
    if v.Accepted? {
      assert (p.accepted + [p.ready[t]])[taken..] == p.accepted[taken..] + [p.ready[t]];
    }
  }

  lemma TurnKeepsQueueA<A, B, E>(max: nat, s: State<A, B, E>, ta: Option<Tid>, tb: Option<Tid>)
    requires Inv(max, s) && Enabled(s, WorkerTurn(ta, tb))
    ensures var s' := Apply(max, s, WorkerTurn(ta, tb)); QueueInv(max, s'.a, s'.sh.qa, |s'.pairs|)
  {
    if WorkerDecision(s.sh).Take? { TakeKeepsQueue(max, s.a, s.sh.qa, |s.pairs|, ta); }
  }

  lemma TurnKeepsQueueB<A, B, E>(max: nat, s: State<A, B, E>, ta: Option<Tid>, tb: Option<Tid>)
    requires Inv(max, s) && Enabled(s, WorkerTurn(ta, tb))
    ensures var s' := Apply(max, s, WorkerTurn(ta, tb)); QueueInv(max, s'.b, s'.sh.qb, |s'.pairs|)
  {
    if WorkerDecision(s.sh).Take? { TakeKeepsQueue(max, s.b, s.sh.qb, |s.pairs|, tb); }
  }

  lemma StepKeepsQueueA<A, B, E>(max: nat, s: State<A, B, E>, step: Step<A, B, E>)
    requires Inv(max, s) && Enabled(s, step)
    ensures var s' := Apply(max, s, step); QueueInv(max, s'.a, s'.sh.qa, |s'.pairs|)
  {
    match step
    case TryA(t) => PushKeepsQueue(max, s.a, s.sh.qa, |s.pairs|, t, Admission(|s.sh.qa|, max, s.sh.stopping));
    case WorkerTurn(ta, tb) => TurnKeepsQueueA(max, s, ta, tb);
    case _ =>
  }

  lemma StepKeepsQueueB<A, B, E>(max: nat, s: State<A, B, E>, step: Step<A, B, E>)
    requires Inv(max, s) && Enabled(s, step)
    ensures var s' := Apply(max, s, step); QueueInv(max, s'.b, s'.sh.qb, |s'.pairs|)
  {
    match step
    case TryB(t) => PushKeepsQueue(max, s.b, s.sh.qb, |s.pairs|, t, Admission(|s.sh.qb|, max, s.sh.stopping));
    case WorkerTurn(ta, tb) => TurnKeepsQueueB(max, s, ta, tb);
    case _ =>
  }

  /** The front of a queue is the first accepted item that was not taken. */
  lemma FrontIsNext<T>(max: nat, p: Producers<T>, q: seq<T>, taken: nat)
    requires QueueInv(max, p, q, taken) && q != []
    ensures taken < |p.accepted| && p.accepted[taken] == q[0]
  {
    assert p.accepted[taken..][0] == p.accepted[taken];
  }

  lemma OneMorePair<A, B, E>(s: State<A, B, E>, s': State<A, B, E>, x: A, y: B)
    requires PairsInv(s) && s'.a.accepted == s.a.accepted && s'.b.accepted == s.b.accepted
    requires |s.pairs| < |s.a.accepted| && |s.pairs| < |s.b.accepted|
    requires x == s.a.accepted[|s.pairs|] && y == s.b.accepted[|s.pairs|] && s'.pairs == s.pairs + [(x, y)]
    ensures PairsInv(s')
  {
  }

  lemma TurnKeepsPairs<A, B, E>(max: nat, s: State<A, B, E>, ta: Option<Tid>, tb: Option<Tid>)
    requires Inv(max, s) && Enabled(s, WorkerTurn(ta, tb))
    ensures PairsInv(Apply(max, s, WorkerTurn(ta, tb)))
  {
    var s' := Apply(max, s, WorkerTurn(ta, tb));
    if WorkerDecision(s.sh).Take? {
      FrontIsNext(max, s.a, s.sh.qa, |s.pairs|);
      FrontIsNext(max, s.b, s.sh.qb, |s.pairs|);
      OneMorePair(s, s', s.sh.qa[0], s.sh.qb[0]);
    } else {
      GrowthKeepsPairs(s, s');
    }
  }

  /** Pairs stay right when the accepted items only grow. */
  lemma GrowthKeepsPairs<A, B, E>(s: State<A, B, E>, s': State<A, B, E>)
    requires PairsInv(s) && s'.pairs == s.pairs && s.a.accepted <= s'.a.accepted && s.b.accepted <= s'.b.accepted
    ensures PairsInv(s')
  {
  }

  lemma OthersOnlyGrow<A, B, E>(max: nat, s: State<A, B, E>, step: Step<A, B, E>)
    requires Enabled(s, step) && !step.WorkerTurn?
    ensures var s' := Apply(max, s, step);
      s'.pairs == s.pairs && s.a.accepted <= s'.a.accepted && s.b.accepted <= s'.b.accepted
  {
  }

  lemma StepKeepsPairs<A, B, E>(max: nat, s: State<A, B, E>, step: Step<A, B, E>)
    requires Inv(max, s) && Enabled(s, step)
    ensures PairsInv(Apply(max, s, step))
  {
    if step.WorkerTurn? {
      TurnKeepsPairs(max, s, step.wokenA, step.wokenB);
    } else {
      OthersOnlyGrow(max, s, step);
      GrowthKeepsPairs(s, Apply(max, s, step));
    }
  }

  lemma TurnKeepsWorker<A, B, E>(max: nat, s: State<A, B, E>, step: Step<A, B, E>)
    requires Inv(max, s) && Enabled(s, step) && step.WorkerTurn?
    ensures WorkerInv(Apply(max, s, step))
  {
  }

  lemma TaskKeepsWorker<A, B, E>(max: nat, s: State<A, B, E>, step: Step<A, B, E>)
    requires Inv(max, s) && Enabled(s, step) && (step.TaskReturns? || step.TaskThrows? || step.FailNotify?)
    ensures WorkerInv(Apply(max, s, step))
  {
  }

  lemma NotifyKeepsWorker<A, B, E>(max: nat, s: State<A, B, E>, step: Step<A, B, E>)
    requires Inv(max, s) && Enabled(s, step)
    requires step.NotifyOne? || step.Stop? || step.StopNotify? || step.WorkerSpurious?
    ensures WorkerInv(Apply(max, s, step))
  {
  }

  /** The zipper's part of the state is as before, unless an item came in: then a notification is due. */
  ghost predicate WorkerApart<A, B, E>(s: State<A, B, E>, s': State<A, B, E>)
  {
    && s'.worker == s.worker && s'.stopDue == s.stopDue && s'.pairs == s.pairs && s'.returned == s.returned
    && ((s'.sh == s.sh && s'.oneDue == s.oneDue)
        || (!s.sh.stopping && s'.sh == s.sh.(qa := s'.sh.qa, qb := s'.sh.qb) && s'.oneDue > 0))
  }

  lemma ApartKeepsWorker<A, B, E>(s: State<A, B, E>, s': State<A, B, E>)
    requires WorkerInv(s) && WorkerApart(s, s')
    ensures WorkerInv(s')
  {
  }

  lemma ProducerIsApart<A, B, E>(max: nat, s: State<A, B, E>, step: Step<A, B, E>)
    requires Enabled(s, step)
    requires step.CallA? || step.TryA? || step.SpuriousA? || step.CallB? || step.TryB? || step.SpuriousB?
    ensures WorkerApart(s, Apply(max, s, step))
  {
  }

  lemma StepKeepsWorker<A, B, E>(max: nat, s: State<A, B, E>, step: Step<A, B, E>)
    requires Inv(max, s) && Enabled(s, step)
    ensures WorkerInv(Apply(max, s, step))
  {
    if step.WorkerTurn? {
      TurnKeepsWorker(max, s, step);
    } else if step.TaskReturns? || step.TaskThrows? || step.FailNotify? {
      TaskKeepsWorker(max, s, step);
    } else if step.NotifyOne? || step.Stop? || step.StopNotify? || step.WorkerSpurious? {
      NotifyKeepsWorker(max, s, step);
    } else {
      ProducerIsApart(max, s, step);
      ApartKeepsWorker(s, Apply(max, s, step));
    }
  }

  /** One step of any kind keeps the whole invariant. */
  lemma StepKeepsInv<A, B, E>(max: nat, s: State<A, B, E>, step: Step<A, B, E>, s': State<A, B, E>)
    requires Inv(max, s) && Enabled(s, step) && s' == Apply(max, s, step)
    ensures Inv(max, s')
  {
    StepKeepsQueueA(max, s, step);
    StepKeepsQueueB(max, s, step);
    StepKeepsPairs(max, s, step);
    StepKeepsWorker(max, s, step);
    StepKeepsBlockedA(max, s, step);
    StepKeepsBlockedB(max, s, step);
  }

  lemma {:induction false} RunInv<A, B, E>(max: nat, r: Run<A, B, E>, i: nat)
    requires IsRun(max, r) && i < |r.states|
    ensures Inv(max, r.states[i])
  {
    if i > 0 {
      RunInv(max, r, i - 1);
      assert StepAt(max, r, i - 1);
      StepKeepsInv(max, r.states[i - 1], r.steps[i - 1], r.states[i]);
    }
  }

  // ----- the protocol's promises

  /**
    In every state of every run the i-th task invocation got the i-th accepted A and the i-th
    accepted B, both queues are within bounds, and accepted items are the taken ones followed
    by the queued ones.
  */
  lemma ZipsInOrder<A, B, E>(max: nat, r: Run<A, B, E>, i: nat)
    requires IsRun(max, r) && i < |r.states|
    ensures var s := r.states[i];
      && |s.sh.qa| <= max && |s.sh.qb| <= max
      && s.a.accepted == seq(|s.pairs|, k requires 0 <= k < |s.pairs| => s.pairs[k].0) + s.sh.qa
      && s.b.accepted == seq(|s.pairs|, k requires 0 <= k < |s.pairs| => s.pairs[k].1) + s.sh.qb
  {
    RunInv(max, r, i);
    var s := r.states[i];
    var n := |s.pairs|;
    assert s.a.accepted == s.a.accepted[..n] + s.a.accepted[n..];
    assert s.b.accepted == s.b.accepted[..n] + s.b.accepted[n..];
  }

  ghost predicate Later<A, B, E>(s: State<A, B, E>, s': State<A, B, E>)
  {
    && s.pairs <= s'.pairs && s.a.accepted <= s'.a.accepted && s.b.accepted <= s'.b.accepted
    && (s.sh.failure.Some? ==> s'.sh.failure == s.sh.failure)
    && (s.sh.stopping ==>
        && s'.sh.stopping
        && s'.a.accepted == s.a.accepted && s'.b.accepted == s.b.accepted
        && (s'.sh.failure.None? ==> s'.sh.drain == s.sh.drain)
        && (!s.sh.drain ==> !s'.sh.drain && s'.pairs == s.pairs))
  }

  lemma StepIsLater<A, B, E>(max: nat, s: State<A, B, E>, step: Step<A, B, E>)
    requires Inv(max, s) && Enabled(s, step)
    ensures Later(s, Apply(max, s, step))
  {
  }

  lemma NextIsLater<A, B, E>(max: nat, r: Run<A, B, E>, j: nat)
    requires IsRun(max, r) && j < |r.steps|
    ensures Later(r.states[j], r.states[j + 1])
  {
    RunInv(max, r, j);
    assert StepAt(max, r, j);
    StepIsLater(max, r.states[j], r.steps[j]);
  }

  lemma LaterTrans<A, B, E>(s: State<A, B, E>, s': State<A, B, E>, s'': State<A, B, E>)
    requires Later(s, s') && Later(s', s'')
    ensures Later(s, s'')
  {
  }

  lemma LaterItself<A, B, E>(s: State<A, B, E>)
    ensures Later(s, s)
  {
  }

  /**
    Between any two states of a run: histories only grow, the first recorded failure stays,
    and once stopping has begun nothing more is accepted, the drain choice of the first stop
    holds until a task throws, and without drain no further pair is taken.
  */
  lemma {:induction false} StoppingIsFinal<A, B, E>(max: nat, r: Run<A, B, E>, i: nat, j: nat)
    requires IsRun(max, r) && i <= j < |r.states|
    ensures Later(r.states[i], r.states[j])
    decreases j
  {
    if i < j {
      StoppingIsFinal(max, r, i, j - 1);
      NextIsLater(max, r, j - 1);
      LaterTrans(r.states[i], r.states[j - 1], r.states[j]);
    } else {
      LaterItself(r.states[i]);
    }
  }

  function Min(a: nat, b: nat): nat { if a <= b then a else b }

  /**
    A worker that has exited left exactly the outcome its stop asked for: drained without a
    failure, every completed pair of accepted items went through the callback; after a failure, all
    invocations but the last returned.
  */
  lemma ExitOutcome<A, B, E>(max: nat, r: Run<A, B, E>, i: nat)
    requires IsRun(max, r) && i < |r.states| && r.states[i].worker.Exited?
    ensures var s := r.states[i];
      && s.sh.stopping
      && (s.sh.drain ==> s.sh.failure.None? && |s.pairs| == Min(|s.a.accepted|, |s.b.accepted|))
      && (s.sh.failure.None? ==> s.returned == |s.pairs|)
      && (s.sh.failure.Some? ==> s.returned == |s.pairs| - 1)
  {
    RunInv(max, r, i);
  }

  /** `stop(true)` before any other stop, and no task throws: all accepted pairs are processed. */
  lemma DrainProcessesEverything<A, B, E>(max: nat, r: Run<A, B, E>, i: nat, j: nat)
    requires IsRun(max, r) && i < |r.steps| && i < j < |r.states|
    requires r.steps[i] == Stop(true) && !r.states[i].sh.stopping
    requires r.states[j].worker.Exited? && r.states[j].sh.failure.None?
    ensures var s := r.states[j];
      && s.returned == |s.pairs| == Min(|r.states[i].a.accepted|, |r.states[i].b.accepted|)
      && s.a.accepted == r.states[i].a.accepted && s.b.accepted == r.states[i].b.accepted
  {
    assert StepAt(max, r, i);
    StoppingIsFinal(max, r, i + 1, j);
    ExitOutcome(max, r, j);
  }

  /** Steps that the zipper's own threads take without waiting for a caller or for the callback. */
  predicate Internal<A, B, E>(step: Step<A, B, E>)
  {
    step.TryA? || step.TryB? || step.NotifyOne? || step.StopNotify? || step.WorkerTurn? || step.FailNotify?
  }

  /**
    No lost wake-up: if a state of a run has nothing internal left to do, then the worker sleeps
    only because no pair is available and the zipper runs, producers are blocked only by a full
    queue of a running zipper, and a stopped zipper has nobody blocked.
  */
  lemma QuiescentMeansIdle<A, B, E>(max: nat, r: Run<A, B, E>, i: nat)
    requires IsRun(max, r) && i < |r.states|
    requires forall step: Step<A, B, E> :: Internal(step) ==> !Enabled(r.states[i], step)
    ensures var s := r.states[i];
      && (s.worker.Asleep? || s.worker.Busy? || s.worker.Exited?)
      && (s.worker.Asleep? ==> !s.sh.stopping && (s.sh.qa == [] || s.sh.qb == []))
      && (s.a.asleep != map[] ==> !s.sh.stopping && |s.sh.qa| == max)
      && (s.b.asleep != map[] ==> !s.sh.stopping && |s.sh.qb| == max)
  {
    RunInv(max, r, i);
    var s := r.states[i];
    assert !Enabled(s, NotifyOne) && !Enabled(s, StopNotify) && !Enabled(s, FailNotify);
    if t :| t in s.a.ready { assert Enabled(s, TryA(t)); }
    if t :| t in s.b.ready { assert Enabled(s, TryB(t)); }
    var ta := SomeSleeper(s.a);
    var tb := SomeSleeper(s.b);
    var turn: Step<A, B, E> := if WorkerDecision(s.sh).Take? then WorkerTurn(ta, tb) else WorkerTurn(None, None);
    assert !Enabled(s, turn);
  }

  ghost function SomeSleeper<T>(p: Producers<T>): (t: Option<Tid>)
    ensures PicksOne(p, t)
  {
    if p.asleep == map[] then None
    else
      assert p.asleep.Keys != {};
      var k :| k in p.asleep.Keys; Some(k)
  }

  /** Bounds the worker steps that remain once stopping has begun. */
  function Rank<A, B, E>(s: State<A, B, E>): nat
  {
    8 * Min(|s.sh.qa|, |s.sh.qb|) +
    match s.worker
    case Ready => 1
    case Asleep => 2
    case Busy(_, _) => 5
    case Failing(due) => due
    case Exited => 0
  }

  predicate WorkerMoves<A, B, E>(step: Step<A, B, E>)
  {
    step.WorkerTurn? || step.WorkerSpurious? || step.TaskReturns? || step.TaskThrows? || step.FailNotify?
  }

  function WorkerSteps<A, B, E>(steps: seq<Step<A, B, E>>): nat
  {
    if steps == [] then 0
    else WorkerSteps(steps[..|steps| - 1]) + if WorkerMoves(steps[|steps| - 1]) then 1 else 0
  }

  lemma StoppingStepLowersRank<A, B, E>(max: nat, s: State<A, B, E>, step: Step<A, B, E>, s': State<A, B, E>)
    requires Inv(max, s) && Enabled(s, step) && s.sh.stopping && s' == Apply(max, s, step)
    ensures Rank(s') + (if WorkerMoves(step) then 1 else 0) <= Rank(s)
  {
  }

  lemma RankAlongRun<A, B, E>(max: nat, r: Run<A, B, E>, i: nat, j: nat)
    requires IsRun(max, r) && i <= j < |r.steps| && r.states[i].sh.stopping
    ensures Rank(r.states[j + 1]) + (if WorkerMoves(r.steps[j]) then 1 else 0) <= Rank(r.states[j])
  {
    StoppingIsFinal(max, r, i, j);
    RunInv(max, r, j);
    assert StepAt(max, r, j);
    StoppingStepLowersRank(max, r.states[j], r.steps[j], r.states[j + 1]);
  }

  /**
    Stopping terminates: after any state i in which stopping has begun, every continuation
    contains at most Rank(state i) worker steps, however the other threads interleave.
  */
  lemma {:induction false} StopTerminates<A, B, E>(max: nat, r: Run<A, B, E>, i: nat, j: nat)
    requires IsRun(max, r) && i <= j < |r.states| && r.states[i].sh.stopping
    ensures WorkerSteps(r.steps[i..j]) + Rank(r.states[j]) <= Rank(r.states[i])
    decreases j
  {
    if i < j {
      StopTerminates(max, r, i, j - 1);
      RankAlongRun(max, r, i, j - 1);
      assert r.steps[i..j][..j - i - 1] == r.steps[i..j - 1];
    }
  }
}
