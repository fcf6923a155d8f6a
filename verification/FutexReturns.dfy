/**
 How the calls of FutexProtocol.dfy end: what each returns and why, and that a call can always go on to
 its end, to sleep, or to the delivery of its tokens.
 */
module FutexReturns {
  import opened Common
  import opened FutexQueue
  import opened FutexProtocol

  // ---------- the last step of a thread ----------

  /** The last step of the thread itself in the run. */
  function LastOwn(steps: seq<Step>, t: Tcs): Option<Step> {
    if steps == [] then None
    else if OwnStep(steps[|steps| - 1], t) then Some(steps[|steps| - 1])
    else LastOwn(steps[..|steps| - 1], t)
  }

  /** The place of a waiting thread as far as its own last step decides it; KernelWake moves a sleeper on. */
  predicate FollowsFrom(pc: Pc, last: Option<Step>, t: Tcs) {
    && (pc == TimedOut <==> last == Some(KernelTimeout(t)))
    && (pc == HostReturned(true) <==> last == Some(TimeoutAdd(t)))
  }

  lemma StepFollows(s: State, step: Step, t: Tcs, last: Option<Step>)
    requires Enabled(s, step) && t in s.threads && FollowsFrom(s.threads[t].pc, last, t)
    ensures t in Apply(s, step).threads
    ensures FollowsFrom(Apply(s, step).threads[t].pc, if OwnStep(step, t) then Some(step) else last, t)
  {
  }

  /**
   A thread is about to undo its host count exactly if its last step was a timeout in the kernel, and about
   to report the timeout exactly if its last step undid the count.
   */
  lemma {:induction false} TimeoutPath(s: State, steps: seq<Step>, t: Tcs)
    requires Init(s) && Exec(s, steps).Some? && t in s.threads
    ensures t in Exec(s, steps).value.threads
    ensures FollowsFrom(Exec(s, steps).value.threads[t].pc, LastOwn(steps, t), t)
  {
    if steps != [] {
      var before := steps[..|steps| - 1];
      TimeoutPath(s, before, t);
      StepFollows(Exec(s, before).value, steps[|steps| - 1], t, LastOwn(before, t));
    }
  }

  /**
   What a wait returns when it takes the lock: a timeout exactly if its last host wait timed out, else 0
   exactly if it is no longer queued, and otherwise it goes back to the host.
   */
  lemma WaitResult(s: State, steps: seq<Step>, m: State, t: Tcs)
    requires Init(s) && Exec(s, steps) == Some(m) && t in s.threads && Enabled(m, Relock(t))
    ensures var m' := Apply(m, Relock(t)); var timedOut := LastOwn(steps, t) == Some(TimeoutAdd(t));
      && t in m'.threads
      && (m'.threads[t].result == Timeout <==> timedOut)
      && (m'.threads[t].result == Zero <==> !timedOut && !Queued(m.list, t))
      && (m'.threads[t].pc == Idle <==> timedOut || !Queued(m.list, t))
      && (m'.threads[t].pc == Idle ==> !Queued(m'.list, t))
      && (m'.threads[t].pc != Idle ==>
        m'.threads[t].pc == BeforeHost && Queued(m'.list, t) && m'.threads[t].result == Nothing)
  {
    TimeoutPath(s, steps, t);
    ReachableInv(s, steps);
    ResultsMatch(s, steps, t);
    WithoutThreadMeans(m.list, t);
  }

  /** No result is recorded while a wait is in progress. */
  lemma {:induction false} ResultsMatch(s: State, steps: seq<Step>, t: Tcs)
    requires Init(s) && Exec(s, steps).Some? && t in s.threads
    ensures t in Exec(s, steps).value.threads
    ensures var th := Exec(s, steps).value.threads[t]; Waits(th.pc) ==> th.result == Nothing
  {
    if steps != [] {
      ResultsMatch(s, steps[..|steps| - 1], t);
      StepKeepsResult(Exec(s, steps[..|steps| - 1]).value, steps[|steps| - 1], t);
    }
  }

  lemma StepKeepsResult(s: State, step: Step, t: Tcs)
    requires Enabled(s, step) && t in s.threads && (Waits(s.threads[t].pc) ==> s.threads[t].result == Nothing)
    ensures t in Apply(s, step).threads
    ensures Waits(Apply(s, step).threads[t].pc) ==> Apply(s, step).threads[t].result == Nothing
  {
  }

  /** The step before the one that undoes the count was a timeout in the kernel. */
  lemma TimeoutComesFromKernel(s: State, steps: seq<Step>, t: Tcs, j: nat)
    requires Init(s) && Exec(s, steps).Some? && j < |steps| && steps[j] == TimeoutAdd(t)
    requires Exec(s, steps[..j]).Some? && Enabled(Exec(s, steps[..j]).value, steps[j]) && t in s.threads
    ensures LastOwn(steps[..j], t) == Some(KernelTimeout(t))
  {
    TimeoutPath(s, steps[..j], t);
  }

  // ---------- a timeout ends the wait ----------

  function OwnCount(steps: seq<Step>, t: Tcs): nat {
    if steps == [] then 0
    else OwnCount(steps[..|steps| - 1], t) + if OwnStep(steps[|steps| - 1], t) then 1 else 0
  }

  /** A thread whose kernel wait timed out, after n of its own steps. */
  predicate TimingOut(s: State, t: Tcs, n: nat) {
    && t in s.threads
    && if n == 0 then s.threads[t].pc == TimedOut
       else if n == 1 then s.threads[t].pc == HostReturned(true)
       else s.threads[t].pc == Idle && s.threads[t].result == Timeout && !Queued(s.list, t)
  }

  lemma TimingOutStep(s: State, step: Step, t: Tcs, n: nat)
    requires Inv(s) && Enabled(s, step) && TimingOut(s, t, n) && n <= 2 && step != Cancel(t)
    requires OwnStep(step, t) ==> n < 2
    ensures TimingOut(Apply(s, step), t, if OwnStep(step, t) then n + 1 else n)
  {
    if OwnStep(step, t) {
      TimingOutOwnStep(s, step, t, n);
    } else {
      QueueChange(s, step, t);
    }
  }

  lemma TimingOutOwnStep(s: State, step: Step, t: Tcs, n: nat)
    requires Inv(s) && Enabled(s, step) && TimingOut(s, t, n) && n < 2 && step != Cancel(t) && OwnStep(step, t)
    ensures TimingOut(Apply(s, step), t, n + 1)
  {
    assert step == if n == 0 then TimeoutAdd(t) else Relock(t);
    WithoutThreadMeans(s.list, t);
  }

  /**
   Whatever the other threads do, the next two steps of a thread whose kernel wait timed out end its wait:
   it returns the timeout and is queued no longer, unless it is canceled.
   */
  lemma {:induction false} TimeoutIsReported(m: State, later: seq<Step>, t: Tcs)
    requires Inv(m) && t in m.threads && m.threads[t].pc == TimedOut
    requires Exec(m, later).Some? && Cancel(t) !in later && OwnCount(later, t) <= 2
    ensures Inv(Exec(m, later).value) && TimingOut(Exec(m, later).value, t, OwnCount(later, t))
  {
    if later != [] {
      var before, step := later[..|later| - 1], later[|later| - 1];
      TimeoutIsReported(m, before, t);
      StepKeepsInv(Exec(m, before).value, step);
      TimingOutStep(Exec(m, before).value, step, t, OwnCount(before, t));
    }
  }

  lemma TimedOutWaitEnds(s: State, run: seq<Step>, m: State, t: Tcs, later: seq<Step>, s': State)
    requires Init(s) && Exec(s, run) == Some(m) && t in m.threads && m.threads[t].pc == TimedOut
    requires Exec(m, later) == Some(s') && Cancel(t) !in later && OwnCount(later, t) == 2
    ensures t in s'.threads && s'.threads[t].pc == Idle && s'.threads[t].result == Timeout && !Queued(s'.list, t)
  {
    ReachableInv(s, run);
    TimeoutIsReported(m, later, t);
  }

  // ---------- a wake call delivers its tokens ----------

  /** The steps belong to a waker and only hand over its tokens. */
  predicate Delivering(steps: seq<Step>, w: Tcs) {
    forall i: nat :: i < |steps| ==> steps[i] == TokenAdd(w) || steps[i] == KernelWake(w)
  }

  /** Each thread has got the given tokens, and the waker's call is over. */
  ghost predicate Delivered(m: State, s': State, w: Tcs, tokens: multiset<Tcs>) {
    && s'.list == m.list && s'.mem == m.mem && s'.threads.Keys == m.threads.Keys
    && w in s'.threads && s'.threads[w].pc == Idle && s'.threads[w].result == m.threads[w].result
    && forall t :: t in m.threads ==> s'.threads[t].wakes == m.threads[t].wakes + tokens[t]
  }

  /** One step of a waker gives away at most the first of its tokens. */
  ghost predicate HandedOver(m: State, m': State, w: Tcs, given: multiset<Tcs>) {
    && w in m.threads && w in m'.threads
    && m'.list == m.list && m'.mem == m.mem && m'.threads.Keys == m.threads.Keys
    && m'.threads[w].result == m.threads[w].result
    && multiset(Rest(m.threads[w].pc)) == multiset(Rest(m'.threads[w].pc)) + given
    && (forall t :: t in m.threads ==> m'.threads[t].wakes == m.threads[t].wakes + given[t])
    && (m'.threads[w].pc == Idle || m'.threads[w].pc.Tokens? || m'.threads[w].pc.Signalling?)
  }

  lemma TokenHandedOver(m: State, w: Tcs)
    requires Enabled(m, TokenAdd(w))
    ensures var m', rest := Apply(m, TokenAdd(w)), Rest(m.threads[w].pc);
      && rest != [] && HandedOver(m, m', w, multiset{rest[0]}) && Rest(m'.threads[w].pc) == rest[1..]
  {
    var rest := Rest(m.threads[w].pc);
    assert rest == [rest[0]] + rest[1..];
  }

  lemma SignalHandsNothingOver(m: State, w: Tcs)
    requires Enabled(m, KernelWake(w))
    ensures var m' := Apply(m, KernelWake(w));
      && HandedOver(m, m', w, multiset{}) && Rest(m'.threads[w].pc) == Rest(m.threads[w].pc)
      && !m'.threads[w].pc.Signalling?
  {
  }

  /**
   A token comes with a call into the kernel except if the receiver has as many unconsumed tokens as it
   needs: none outside of its host wait, and one inside.
   */
  lemma SignalledIfNeeded(s: State, run: seq<Step>, m: State, w: Tcs)
    requires Init(s) && Exec(s, run) == Some(m) && Enabled(m, TokenAdd(w))
    ensures var m', th := Apply(m, TokenAdd(w)), m.threads[m.threads[w].pc.rest[0]];
      && w in m'.threads
      && (m'.threads[w].pc.Signalling? <==> th.wakes - th.zeroReturns != if InHost(th.pc) then 1 else 0)
      && (th.pc.Asleep? && th.event == -1 ==>
        m'.threads[w].pc.Signalling? && m'.threads[w].pc.target == m.threads[w].pc.rest[0])
  {
    ReachableInv(s, run);
  }

  lemma DeliveredMore(m: State, m': State, s': State, w: Tcs, given: multiset<Tcs>)
    requires HandedOver(m, m', w, given) && Delivered(m', s', w, multiset(Rest(m'.threads[w].pc)))
    ensures Delivered(m, s', w, multiset(Rest(m.threads[w].pc)))
  {
  }

  /** If the step was the last one, everything is delivered. */
  lemma DeliveredLast(m: State, m': State, w: Tcs, given: multiset<Tcs>)
    requires HandedOver(m, m', w, given) && m'.threads[w].pc == Idle
    ensures Delivered(m, m', w, multiset(Rest(m.threads[w].pc)))
  {
  }

  predicate Hands(pc: Pc) {
    pc.Tokens? || pc.Signalling?
  }

  lemma DeliverOne(m: State, w: Tcs) returns (step: Step, m': State, given: multiset<Tcs>)
    requires Inv(m) && w in m.threads && Hands(m.threads[w].pc)
    ensures Exec(m, [step]) == Some(m') && (step == TokenAdd(w) || step == KernelWake(w))
    ensures Inv(m') && HandedOver(m, m', w, given)
    ensures var was, now := m.threads[w].pc, m'.threads[w].pc;
      |Rest(now)| < |Rest(was)| || (|Rest(now)| == |Rest(was)| && was.Signalling? && !now.Signalling?)
  {
    assert PcInv(m, m.threads[w].pc);
    if m.threads[w].pc.Tokens? {
      step, given := TokenAdd(w), multiset{m.threads[w].pc.rest[0]};
      TokenHandedOver(m, w);
    } else {
      step, given := KernelWake(w), multiset{};
      SignalHandsNothingOver(m, w);
    }
    m' := Apply(m, step);
    StepKeepsInv(m, step);
    ExecOne(m, step);
  }

  lemma {:induction false} DeliverAll(m: State, w: Tcs) returns (steps: seq<Step>)
    requires Inv(m) && w in m.threads && Hands(m.threads[w].pc)
    ensures Exec(m, steps).Some? && Delivering(steps, w)
    ensures Delivered(m, Exec(m, steps).value, w, multiset(Rest(m.threads[w].pc)))
    decreases |Rest(m.threads[w].pc)|, m.threads[w].pc.Signalling?
  {
    var step, m', given := DeliverOne(m, w);
    if m'.threads[w].pc == Idle {
      steps := [step];
      DeliveredLast(m, m', w, given);
    } else {
      var more := DeliverAll(m', w);
      ExecConcat(m, [step], more);
      steps := [step] + more;
      DeliveredMore(m, m', Exec(m', more).value, w, given);
    }
  }

  /** The threads that a wake call gives a token each. */
  function Receivers(m: State, step: Step): seq<Tcs>
    requires step.WakeLock? || step.ExtraWake?
  {
    if step.WakeLock? then Woken(m.list, step.uaddr, step.limit) else [step.target]
  }

  /**
   A wake call can always finish by its own steps.  It then gave one token to each thread that it took off
   the list, or to the one it was told to wake, and returns how many threads it took off the list.
   */
  lemma WakeCallDelivers(s: State, run: seq<Step>, m: State, step: Step) returns (steps: seq<Step>)
    requires Init(s) && Exec(s, run) == Some(m) && Enabled(m, step) && (step.WakeLock? || step.ExtraWake?)
    ensures Exec(m, [step] + steps).Some? && Delivering(steps, step.t)
    ensures var s' := Exec(m, [step] + steps).value;
      && step.t in s'.threads && s'.threads[step.t].pc == Idle
      && (step.WakeLock? ==> s'.threads[step.t].result == Count(|Receivers(m, step)|))
      && s'.list == (if step.WakeLock? then AfterWake(m.list, step.uaddr, step.limit, step.uaddr2) else m.list)
      && forall t :: t in m.threads ==>
           t in s'.threads && s'.threads[t].wakes == m.threads[t].wakes + multiset(Receivers(m, step))[t]
  {
    ReachableInv(s, run);
    StepKeepsInv(m, step);
    ExecOne(m, step);
    var m' := Apply(m, step);
    if m'.threads[step.t].pc == Idle {
      steps := [];
      assert [step] + steps == [step];
    } else {
      steps := DeliverAll(m', step.t);
      ExecConcat(m, [step], steps);
    }
  }

  // ---------- a queued waiter goes to sleep ----------

  /** The steps belong to a waiter that calls the host until it sleeps. */
  predicate GoingToSleep(steps: seq<Step>, t: Tcs) {
    forall i: nat :: i < |steps| ==> steps[i] == HostAdd(t) || steps[i] == KernelWait(t) || steps[i] == Relock(t)
  }

  /** Stale tokens only cost a queued waiter one round each; then it sleeps. */
  lemma {:induction false} StaleTokensOnlyDelay(m: State, t: Tcs) returns (steps: seq<Step>)
    requires Inv(m) && t in m.threads && m.threads[t].pc == BeforeHost && Queued(m.list, t)
    ensures Exec(m, steps).Some? && GoingToSleep(steps, t) && |steps| == 2 * Stored(m.threads[t]) + 2
    ensures var s' := Exec(m, steps).value;
      && s'.list == m.list && t in s'.threads && s'.threads[t].pc == Asleep && s'.threads[t].event == -1
    decreases Stored(m.threads[t])
  {
    assert EventInv(m.threads[t]);
    var m1 := Apply(m, HostAdd(t));
    StepKeepsInv(m, HostAdd(t));
    ExecOne(m, HostAdd(t));
    if m.threads[t].event == 0 {
      ExecOne(m1, KernelWait(t));
      ExecConcat(m, [HostAdd(t)], [KernelWait(t)]);
      steps := [HostAdd(t)] + [KernelWait(t)];
    } else {
      var m2 := Apply(m1, Relock(t));
      StepKeepsInv(m1, Relock(t));
      ExecOne(m1, Relock(t));
      ExecConcat(m, [HostAdd(t)], [Relock(t)]);
      var more := StaleTokensOnlyDelay(m2, t);
      ExecConcat(m, [HostAdd(t)] + [Relock(t)], more);
      steps := [HostAdd(t)] + [Relock(t)] + more;
    }
  }

  lemma QueuedWaiterCanSleep(s: State, run: seq<Step>, m: State, t: Tcs) returns (steps: seq<Step>)
    requires Init(s) && Exec(s, run) == Some(m) && t in m.threads && m.threads[t].pc == BeforeHost && Queued(m.list, t)
    ensures Exec(m, steps).Some? && GoingToSleep(steps, t)
    ensures var s' := Exec(m, steps).value; s'.list == m.list && t in s'.threads && s'.threads[t].pc == Asleep
  {
    ReachableInv(s, run);
    steps := StaleTokensOnlyDelay(m, t);
  }
}
