/** Asynchronous replies of an SCPI session: a queue with at most one write under way. */
module Scpi {
  import opened Scan

  /** A write handed to the socket; `live` says whether the socket was open at that moment. */
  datatype Pending = Pending(message: string, live: bool)

  /**
    The session's fields, the writes the socket still has to report on, and a record of what was
    enqueued, delivered and lost.
  */
  datatype State = State(queue: seq<string>, inProgress: bool, closePending: bool, open: bool,
                         outstanding: seq<Pending>, enqueued: seq<string>, delivered: seq<string>, failures: nat)

  const NEW: State := State([], false, false, true, [], [], [], 0)

  // ----- what each callback does

  function StartNext(s: State): State
  {
    if s.queue != [] then s.(inProgress := true, outstanding := s.outstanding + [Pending(s.queue[0], s.open)])
    else if s.closePending then s.(inProgress := false, closePending := false, open := false)
    else s.(inProgress := false)
  }

  function AfterWrite(s: State, msg: string): State
  {
    if msg == "" then s
    else
      var t := s.(queue := s.queue + [msg + "\n"], enqueued := s.enqueued + [msg + "\n"]);
      if t.inProgress then t else StartNext(t)
  }

  function Without<T>(s: seq<T>, k: nat): seq<T>
    requires k < |s|
  {
    s[..k] + s[k + 1..]
  }

  /** The socket reports on its k-th outstanding write. */
  function AfterCompletion(s: State, k: nat, ok: bool): State
    requires k < |s.outstanding| && s.queue != []
  {
    var t := s.(queue := s.queue[1..], outstanding := Without(s.outstanding, k));
    if ok then StartNext(t.(delivered := t.delivered + [s.outstanding[k].message]))
    else t.(inProgress := false, open := false, failures := t.failures + 1)
  }

  function AfterEof(s: State): State
  {
    if s.inProgress || s.queue != [] then s.(closePending := true) else s.(open := false)
  }

  function AfterClose(s: State): State { s.(open := false) }

  /** The session object; `outstanding` and the histories belong to its surroundings. */
  class Session {
    var queue: seq<string>
    var inProgress: bool
    var closePending: bool
    var open: bool
    ghost var outstanding: seq<Pending>
    ghost var enqueued: seq<string>
    ghost var delivered: seq<string>
    ghost var failures: nat

    ghost function View(): State
      reads this
    {
      State(queue, inProgress, closePending, open, outstanding, enqueued, delivered, failures)
    }

    constructor ()
      ensures View() == NEW
    {
      queue, inProgress, closePending, open := [], false, false, true;
      outstanding, enqueued, delivered, failures := [], [], [], 0;
    }

    method CloseSession()
      modifies this
      ensures View() == AfterClose(old(View()))
    {
      open := false;
    }

    method CloseAfterWrites()
      modifies this
      ensures View() == AfterEof(old(View()))
    {
      if inProgress || queue != [] {
        closePending := true;
        return;
      }
      CloseSession();
    }

    method StartNextWrite()
      modifies this
      ensures View() == StartNext(old(View()))
    {
      if queue == [] {
        inProgress := false;
        if closePending {
          closePending := false;
          CloseSession();
        }
        return;
      }
      inProgress := true;
      outstanding := outstanding + [Pending(queue[0], open)];
    }

    method Write(msg: string)
      modifies this
      ensures View() == AfterWrite(old(View()), msg)
    {
      if msg == "" { return; }
      queue := queue + [msg + "\n"];
      enqueued := enqueued + [msg + "\n"];
      if !inProgress { StartNextWrite(); }
    }

    /** The completion handler; popping needs a message in the queue. */
    method WriteDone(k: nat, ok: bool)
      requires k < |outstanding| && queue != []
      modifies this
      ensures View() == AfterCompletion(old(View()), k, ok)
    {
      queue := queue[1..];
      ghost var message := outstanding[k].message;
      outstanding := Without(outstanding, k);
      if !ok {
        inProgress := false;
        failures := failures + 1;
        CloseSession();
        return;
      }
      delivered := delivered + [message];
      StartNextWrite();
    }
  }

  // ----- every interleaving of writes, completions, end of input and forced closing

  datatype Step = Write(msg: string) | Completion(k: nat, ok: bool) | Eof | Close

  /** A write that was started on a closed socket cannot succeed. */
  predicate Enabled(s: State, step: Step)
  {
    step.Completion? ==> step.k < |s.outstanding| && (step.ok ==> s.outstanding[step.k].live)
  }

  function Apply(s: State, step: Step): State
    requires Enabled(s, step) && (step.Completion? ==> s.queue != [])
  {
    match step
    case Write(msg) => AfterWrite(s, msg)
    case Completion(k, ok) => AfterCompletion(s, k, ok)
    case Eof => AfterEof(s)
    case Close => AfterClose(s)
  }

  ghost predicate Inv(s: State)
  {
    && |s.outstanding| == (if s.inProgress then 1 else 0)
    && (s.inProgress ==> s.queue != [] && s.outstanding[0].message == s.queue[0])
    && (s.failures == 0 ==> s.enqueued == s.delivered + s.queue && (s.queue != [] ==> s.inProgress))
    && (s.failures > 0 ==> !s.open && (s.inProgress ==> !s.outstanding[0].live))
    && IsPrefix(s.delivered, s.enqueued)
    && (s.closePending && s.open ==> s.inProgress)
  }

  lemma PrefixGrows(a: seq<string>, b: seq<string>, x: string)
    requires IsPrefix(a, b)
    ensures IsPrefix(a, b + [x])
  {
  }

  lemma PrefixOfConcat(a: seq<string>, q: seq<string>)
    requires q != []
    ensures a + q == (a + [q[0]]) + q[1..] && IsPrefix(a + [q[0]], a + q)
  {
  }

  /** Every callback finds what it needs and keeps the invariant. */
  lemma StepKeepsInv(s: State, step: Step)
    requires Inv(s) && Enabled(s, step)
    ensures step.Completion? ==> s.queue != []
    ensures Inv(Apply(s, step))
  {
    match step
    case Write(msg) =>
      PrefixGrows(s.delivered, s.enqueued, msg + "\n");
      assert s.delivered + (s.queue + [msg + "\n"]) == s.delivered + s.queue + [msg + "\n"];
    case Completion(k, ok) =>
      assert Without(s.outstanding, 0) == [];
      PrefixOfConcat(s.delivered, s.queue);
    case Eof =>
    case Close =>
  }

  datatype Run = Run(states: seq<State>, steps: seq<Step>)

  ghost predicate StepAt(r: Run, i: nat)
    requires i < |r.steps| && i + 1 < |r.states|
  {
    var s, step := r.states[i], r.steps[i];
    Enabled(s, step) && (step.Completion? ==> s.queue != []) && r.states[i + 1] == Apply(s, step)
  }

  /** A run starts with a new session and takes enabled steps only. */
  ghost predicate IsRun(r: Run)
  {
    |r.states| == |r.steps| + 1 && r.states[0] == NEW && forall i :: 0 <= i < |r.steps| ==> StepAt(r, i)
  }

  lemma {:induction false} RunInv(r: Run, i: nat)
    requires IsRun(r) && i < |r.states|
    ensures Inv(r.states[i])
  {
    if i > 0 {
      RunInv(r, i - 1);
      assert StepAt(r, i - 1);
      StepKeepsInv(r.states[i - 1], r.steps[i - 1]);
    }
  }

  /**
    In every state of every run at most one write is outstanding, a completion always finds its
    own message at the front, and what was delivered is a prefix of what was enqueued.
  */
  lemma WritesInOrder(r: Run, i: nat)
    requires IsRun(r) && i < |r.states|
    ensures var s := r.states[i];
      && |s.outstanding| <= 1 && IsPrefix(s.delivered, s.enqueued)
      && (s.outstanding != [] ==> s.queue != [] && s.outstanding[0].message == s.queue[0])
      && (s.failures == 0 ==> s.enqueued == s.delivered + s.queue)
  {
    RunInv(r, i);
  }

  // ----- what the steps of a run asked for

  /** Every message that is not empty, with its line end. */
  ghost function Requested(steps: seq<Step>): seq<string>
  {
    if steps == [] then []
    else
      var last := steps[|steps| - 1];
      Requested(steps[..|steps| - 1]) + if last.Write? && last.msg != "" then [last.msg + "\n"] else []
  }

  ghost function Completions(steps: seq<Step>, ok: bool): nat
  {
    if steps == [] then 0
    else
      var last := steps[|steps| - 1];
      Completions(steps[..|steps| - 1], ok) + if last.Completion? && last.ok == ok then 1 else 0
  }

  lemma {:induction false} Histories(r: Run, i: nat)
    requires IsRun(r) && i < |r.states|
    ensures var s, done := r.states[i], r.steps[..i];
      && s.enqueued == Requested(done) && |s.delivered| == Completions(done, true)
      && s.failures == Completions(done, false)
  {
    if i > 0 {
      Histories(r, i - 1);
      assert StepAt(r, i - 1);
      assert r.steps[..i][..i - 1] == r.steps[..i - 1];
      HistoryStep(r.states[i - 1], r.steps[i - 1]);
    }
  }

  lemma HistoryStep(s: State, step: Step)
    requires Enabled(s, step) && (step.Completion? ==> s.queue != [])
    ensures var t := Apply(s, step);
      && t.enqueued == s.enqueued + (if step.Write? && step.msg != "" then [step.msg + "\n"] else [])
      && |t.delivered| == |s.delivered| + (if step.Completion? && step.ok then 1 else 0)
      && t.failures == s.failures + (if step.Completion? && !step.ok then 1 else 0)
  {
  }

  /**
    What has been delivered are the first messages that were written, one per successful completion,
    and while no write has failed everything else that was written is still queued, in order.
  */
  lemma RepliesInOrder(r: Run, i: nat)
    requires IsRun(r) && i < |r.states|
    ensures var s, done := r.states[i], r.steps[..i];
      && IsPrefix(s.delivered, Requested(done)) && |s.delivered| == Completions(done, true)
      && (Completions(done, false) == 0 ==> Requested(done) == s.delivered + s.queue)
      && (Completions(done, false) == 0 && s.queue != [] ==> s.outstanding != [])
  {
    RunInv(r, i);
    Histories(r, i);
  }

  lemma EofIsNoted(r: Run, i: nat)
    requires IsRun(r) && i < |r.steps| && r.steps[i] == Eof
    ensures r.states[i + 1].closePending || !r.states[i + 1].open
  {
    assert StepAt(r, i);
  }

  lemma StillNoted(s: State, step: Step)
    requires Enabled(s, step) && (step.Completion? ==> s.queue != []) && (s.closePending || !s.open)
    ensures Apply(s, step).closePending || !Apply(s, step).open
  {
  }

  /** After the end of input the socket closes as soon as nothing is left to write. */
  lemma {:induction false} EofTakesEffect(r: Run, i: nat, j: nat)
    requires IsRun(r) && i < j < |r.states| && r.steps[i] == Eof
    ensures r.states[j].closePending || !r.states[j].open
    ensures r.states[j].outstanding == [] ==> !r.states[j].open
    decreases j
  {
    RunInv(r, j);
    if j == i + 1 {
      EofIsNoted(r, i);
    } else {
      EofTakesEffect(r, i, j - 1);
      assert StepAt(r, j - 1);
      StillNoted(r.states[j - 1], r.steps[j - 1]);
    }
  }

  /** Nothing but the end of input, a forced close or a failed write closes the socket. */
  lemma {:induction false} StaysOpen(r: Run, j: nat)
    requires IsRun(r) && j < |r.states|
    requires forall k :: 0 <= k < j ==>
      !r.steps[k].Eof? && !r.steps[k].Close? && (r.steps[k].Completion? ==> r.steps[k].ok)
    ensures r.states[j].open && !r.states[j].closePending
  {
    if j > 0 {
      StaysOpen(r, j - 1);
      assert StepAt(r, j - 1);
    }
  }

  /** Without write errors, only a forced close can close the socket before everything has been delivered. */
  lemma EofClosesWhenDrained(r: Run, i: nat)
    requires IsRun(r) && i < |r.steps| && !r.steps[i].Close?
    requires r.states[i].open && !r.states[i + 1].open && r.states[i + 1].failures == 0
    ensures var s := r.states[i + 1]; s.queue == [] && s.outstanding == [] && s.delivered == s.enqueued
  {
    RunInv(r, i);
    RunInv(r, i + 1);
    assert StepAt(r, i);
    var s := r.states[i + 1];
    assert s.delivered + [] == s.delivered;
  }

  /** A postponed close is never forgotten: with no write outstanding the socket is closed. */
  lemma CloseIsNotForgotten(r: Run, i: nat)
    requires IsRun(r) && i < |r.states| && r.states[i].closePending && r.states[i].outstanding == []
    ensures !r.states[i].open
  {
    RunInv(r, i);
  }

  /** The state after n successful completions. */
  ghost function Drain(s: State, n: nat): State
    requires Inv(s) && s.failures == 0 && n <= |s.queue|
    decreases n
  {
    if n == 0 then s
    else
      var t := AfterCompletion(s, 0, true);
      CompletionKeepsInv(s);
      Drain(t, n - 1)
  }

  lemma CompletionKeepsInv(s: State)
    requires Inv(s) && s.failures == 0 && s.queue != []
    ensures Inv(AfterCompletion(s, 0, true)) && AfterCompletion(s, 0, true).failures == 0
    ensures AfterCompletion(s, 0, true).queue == s.queue[1..] && AfterCompletion(s, 0, true).enqueued == s.enqueued
    ensures |s.queue| > 1 ==> AfterCompletion(s, 0, true).closePending == s.closePending
    ensures |s.queue| > 1 ==> AfterCompletion(s, 0, true).open == s.open
    ensures |s.queue| == 1 && s.closePending ==> !AfterCompletion(s, 0, true).open
  {
    assert Without(s.outstanding, 0) == [];
    PrefixOfConcat(s.delivered, s.queue);
  }

  /** After end of input, as many completions as there are queued messages deliver everything and close the socket. */
  lemma {:induction false} DrainingCloses(s: State)
    requires Inv(s) && s.failures == 0 && s.closePending && s.queue != []
    ensures var t := Drain(s, |s.queue|); !t.open && t.queue == [] && t.delivered == t.enqueued == s.enqueued
    decreases |s.queue|
  {
    CompletionKeepsInv(s);
    var t := AfterCompletion(s, 0, true);
    if |s.queue| > 1 {
      DrainingCloses(t);
    } else {
      assert t.delivered + [] == t.delivered;
    }
  }
}
