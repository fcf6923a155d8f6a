/**
 What users of the futex of FutexProtocol.dfy rely on: changing the value at an address and then
 waking everybody who waits there leaves no thread waiting for the change.
 */
module FutexGuarantee {
  import opened Common
  import opened FutexQueue
  import opened FutexProtocol

  /** No step stores val to the address or moves waiters of another address to it. */
  predicate Leaves(steps: seq<Step>, uaddr: nat, val: int) {
    forall i: nat :: i < |steps| ==>
      && (steps[i].Store? && steps[i].uaddr == uaddr ==> steps[i].val != val)
      && (steps[i].WakeLock? ==> steps[i].uaddr2 != uaddr)
  }

  /** The thread's last wait call among the steps was on the address, and expected another value. */
  predicate WaitedForOther(steps: seq<Step>, t: Tcs, uaddr: nat, val: int) {
    var n := LastWait(steps, t);
    0 < n && steps[n - 1].WaitLock? && steps[n - 1].uaddr == uaddr && steps[n - 1].val != val
  }

  lemma {:induction false} RemainsFromQueue(q: seq<Entry>, uaddr: nat, n: nat, e: Entry)
    requires e in WithoutOldest(q, uaddr, n)
    ensures e in q
  {
    if q[0].uaddr == uaddr && 0 < n {
      RemainsFromQueue(q[1..], uaddr, n - 1, e);
    } else if e != q[0] {
      var rest := WithoutOldest(q, uaddr, n);
      assert rest == [q[0]] + WithoutOldest(q[1..], uaddr, n);
      RemainsFromQueue(q[1..], uaddr, n, e);
    }
  }

  lemma RemainsFromWake(q: seq<Entry>, wake: Step, uaddr: nat, t: Tcs)
    requires wake.WakeLock? && wake.uaddr2 != uaddr
    requires Entry(t, uaddr) in AfterWake(q, wake.uaddr, wake.limit, wake.uaddr2)
    ensures Entry(t, uaddr) in q
  {
    var rest := WithoutOldest(q, wake.uaddr, Min(wake.limit, MAX_WAKE));
    assert Entry(t, uaddr) in rest;
    RemainsFromQueue(q, wake.uaddr, Min(wake.limit, MAX_WAKE), Entry(t, uaddr));
  }

  lemma {:induction false} RemainsFromWithout(q: seq<Entry>, t: Tcs, e: Entry)
    requires e in WithoutThread(q, t)
    ensures e in q
  {
    if q[0].tcs != t && e != q[0] {
      assert WithoutThread(q, t) == [q[0]] + WithoutThread(q[1..], t);
      RemainsFromWithout(q[1..], t, e);
    }
  }

  /** The entries on an address after a step were there before, or come from a wait call whose value was met. */
  lemma EntriesAfter(s: State, step: Step, t: Tcs, uaddr: nat)
    requires Enabled(s, step) && Entry(t, uaddr) in Apply(s, step).list
    requires step.WakeLock? ==> step.uaddr2 != uaddr
    ensures Entry(t, uaddr) in s.list || (step == WaitLock(t, uaddr, Load(s, uaddr)))
  {
    match step
    case WakeLock(_, _, _, _) => RemainsFromWake(s.list, step, uaddr, t);
    case Relock(u) =>
      if s.threads[u].pc.timedout {
        RemainsFromWithout(s.list, u, Entry(t, uaddr));
      }
    case Cancel(u) => RemainsFromWithout(s.list, u, Entry(t, uaddr));
    case _ =>
  }

  /** A thread that is queued does not begin another wait. */
  lemma QueuedBeginsNoWait(s: State, step: Step, t: Tcs, uaddr: nat)
    requires Inv(s) && Enabled(s, step) && Entry(t, uaddr) in s.list
    ensures !(step.WaitLock? && step.t == t)
  {
    var i: nat :| i < |s.list| && s.list[i] == Entry(t, uaddr);
    assert Waits(s.threads[t].pc);
  }

  lemma {:induction false} OthersWait(m: State, after: seq<Step>, uaddr: nat, val: int)
    requires Inv(m) && Load(m, uaddr) != val && Matching(m.list, uaddr) == []
    requires Exec(m, after).Some? && Leaves(after, uaddr, val)
    ensures var s' := Exec(m, after).value;
      && Inv(s') && Load(s', uaddr) != val
      && forall t :: Entry(t, uaddr) in s'.list ==> WaitedForOther(after, t, uaddr, val)
  {
    if after == [] {
      forall t ensures Entry(t, uaddr) !in m.list {
        if Entry(t, uaddr) in m.list {
          QueuedIsMatching(m.list, uaddr, t);
        }
      }
    } else {
      var before, step := after[..|after| - 1], after[|after| - 1];
      assert Leaves(before, uaddr, val) && step == after[|after| - 1];
      OthersWait(m, before, uaddr, val);
      var p := Exec(m, before).value;
      StepKeepsInv(p, step);
      assert after == before + [step];
      forall t | Entry(t, uaddr) in Apply(p, step).list ensures WaitedForOther(after, t, uaddr, val) {
        OthersWaitStep(p, before, step, uaddr, val, t);
      }
    }
  }

  lemma OthersWaitStep(p: State, before: seq<Step>, step: Step, uaddr: nat, val: int, t: Tcs)
    requires Inv(p) && Load(p, uaddr) != val && Enabled(p, step) && Entry(t, uaddr) in Apply(p, step).list
    requires step.WakeLock? ==> step.uaddr2 != uaddr
    requires Entry(t, uaddr) in p.list ==> WaitedForOther(before, t, uaddr, val)
    ensures WaitedForOther(before + [step], t, uaddr, val)
  {
    var after := before + [step];
    assert after[..|after| - 1] == before;
    EntriesAfter(p, step, t, uaddr);
    if Entry(t, uaddr) in p.list {
      QueuedBeginsNoWait(p, step, t, uaddr);
      assert LastWait(after, t) == LastWait(before, t);
    }
  }

  lemma {:induction false} QueuedIsMatching(q: seq<Entry>, uaddr: nat, t: Tcs)
    requires Entry(t, uaddr) in q
    ensures t in Matching(q, uaddr)
  {
    if q[0] != Entry(t, uaddr) {
      QueuedIsMatching(q[1..], uaddr, t);
    }
  }

  /**
   No waiter misses a change.  When a wake call takes everybody off an address whose value is no
   longer val, then as long as val is not stored again, whoever waits there waits for another value.
   */
  lemma NoWaiterMissesAChange(
      s: State, before: seq<Step>, m: State, wake: Step, after: seq<Step>, s': State, val: int, t: Tcs)
    requires Init(s) && Exec(s, before) == Some(m) && Enabled(m, wake) && Exec(Apply(m, wake), after) == Some(s')
    requires wake.WakeLock? && wake.uaddr2 == 0 && |Matching(m.list, wake.uaddr)| <= Min(wake.limit, MAX_WAKE)
    requires Load(m, wake.uaddr) != val && Leaves(after, wake.uaddr, val)
    requires Entry(t, wake.uaddr) in s'.list
    ensures WaitedForOther(after, t, wake.uaddr, val)
  {
    ReachableInv(s, before);
    StepKeepsInv(m, wake);
    MatchingAfter(m.list, wake.uaddr, Min(wake.limit, MAX_WAKE));
    OthersWait(Apply(m, wake), after, wake.uaddr, val);
  }

  /** A wait call queues the thread exactly if the value is the expected one, and otherwise returns at once. */
  lemma WaitsOnlyForExpectedValue(s: State, steps: seq<Step>, m: State, t: Tcs, uaddr: nat, val: int)
    requires Init(s) && Exec(s, steps) == Some(m) && Enabled(m, WaitLock(t, uaddr, val))
    ensures var m' := Apply(m, WaitLock(t, uaddr, val));
      if Load(m, uaddr) == val then
        Queued(m'.list, t) && m'.list == m.list + [Entry(t, uaddr)] && m'.threads[t].pc == BeforeHost
      else !Queued(m'.list, t) && m'.list == m.list && m'.threads[t].pc == Idle && m'.threads[t].result == WouldBlock
  {
    ReachableInv(s, steps);
    QueueChange(m, WaitLock(t, uaddr, val), t);
  }

  // ---------- a wake that meets a timeout ----------

  lemma PoppedPrefix(s: State, steps: seq<Step>, t: Tcs, uaddr: nat, j: nat)
    requires PoppedAt(s, steps, t, uaddr, j) && j < |steps| - 1
    ensures PoppedAt(s, steps[..|steps| - 1], t, uaddr, j)
  {
    var before := steps[..|steps| - 1];
    assert before[..j] == steps[..j] && before[j] == steps[j];
    forall k | j < k < |before| ensures !(before[k].WaitLock? && before[k].t == t) {
      assert before[k] == steps[k];
    }
  }

  /** Until its next wait call, a popped thread is not queued. */
  lemma {:induction false} PoppedStaysUnqueued(s: State, steps: seq<Step>, t: Tcs, uaddr: nat, j: nat)
    requires Init(s) && Exec(s, steps).Some? && PoppedAt(s, steps, t, uaddr, j)
    ensures !Queued(Exec(s, steps).value.list, t)
  {
    var before, step := steps[..|steps| - 1], steps[|steps| - 1];
    var m := Exec(s, before).value;
    ReachableInv(s, before);
    QueueChange(m, step, t);
    if j < |before| {
      PoppedPrefix(s, steps, t, uaddr, j);
      PoppedStaysUnqueued(s, before, t, uaddr, j);
    }
  }

  /**
   A wait whose host wait timed out reports the timeout, although a wake call popped and counted the
   thread, exactly if the thread is no longer queued when it takes the lock.
   */
  lemma TimeoutHidesWake(s: State, steps: seq<Step>, m: State, t: Tcs)
    requires Init(s) && Exec(s, steps) == Some(m) && Enabled(m, Relock(t)) && m.threads[t].pc == HostReturned(true)
    ensures !Queued(m.list, t) <==> exists uaddr, j :: PoppedAt(s, steps, t, uaddr, j)
    ensures Apply(m, Relock(t)).threads[t].pc == Idle && !Queued(Apply(m, Relock(t)).list, t)
  {
    ReachableInv(s, steps);
    WithoutThreadMeans(m.list, t);
    if !Queued(m.list, t) {
      var uaddr, j := UnqueuedWasPopped(s, steps, m, t);
    }
    if uaddr, j :| PoppedAt(s, steps, t, uaddr, j) {
      PoppedStaysUnqueued(s, steps, t, uaddr, j);
    }
  }

  /** A thread waits on address 1 until it sleeps in the kernel. */
  lemma FallsAsleep(s: State, steps: seq<Step>, m: State, t: Tcs) returns (steps': seq<Step>, m': State)
    requires Exec(s, steps) == Some(m) && t in m.threads && m.threads[t] == Thread(Idle, 0, 0, 0, Nothing)
    ensures Exec(s, steps') == Some(m')
    ensures m' == m.(list := m.list + [Entry(t, 1)], threads := m.threads[t := Thread(Asleep, -1, 0, 0, Nothing)])
  {
    steps', m' := steps, m;
    ExecThen(s, steps', WaitLock(t, 1, Load(m, 1)));
    steps', m' := steps' + [WaitLock(t, 1, Load(m, 1))], Apply(m', WaitLock(t, 1, Load(m, 1)));
    ExecThen(s, steps', HostAdd(t));
    steps', m' := steps' + [HostAdd(t)], Apply(m', HostAdd(t));
    ExecThen(s, steps', KernelWait(t));
    steps', m' := steps' + [KernelWait(t)], Apply(m', KernelWait(t));
  }

  /**
   A wake for one thread is lost: threads 1 and 2 wait on one address, 1 times out, 3 wakes one thread and
   is told that it woke one, 1 is about to report the timeout, and 2 sleeps on.
   */
  lemma WakeLostToTimeout(s: State) returns (steps: seq<Step>, m: State)
    requires Init(s) && 1 in s.threads && 2 in s.threads && 3 in s.threads
    ensures Exec(s, steps) == Some(m) && Enabled(m, Relock(1))
    ensures m.threads[1].pc == HostReturned(true) && !Queued(m.list, 1)
    ensures 2 in m.threads && m.threads[2].pc == Asleep && Queued(m.list, 2) && m.threads[2].event == -1
    ensures 3 in m.threads && m.threads[3].pc == Idle
  {
    steps, m := FallsAsleep(s, [], s, 1);
    steps, m := FallsAsleep(s, steps, m, 2);
    ExecThen(s, steps, KernelTimeout(1));
    steps, m := steps + [KernelTimeout(1)], Apply(m, KernelTimeout(1));
    assert m.list == [Entry(1, 1), Entry(2, 1)];
    steps, m := WakesTimedOut(s, steps, m);
    ExecThen(s, steps, TimeoutAdd(1));
    steps, m := steps + [TimeoutAdd(1)], Apply(m, TimeoutAdd(1));
    assert m.list[0].tcs == 2;
  }

  /** Thread 3 wakes one thread on address 1, and that is thread 1, whose host wait has already timed out. */
  lemma WakesTimedOut(s: State, steps: seq<Step>, m: State) returns (steps': seq<Step>, m': State)
    requires Exec(s, steps) == Some(m) && m.list == [Entry(1, 1), Entry(2, 1)]
    requires 1 in m.threads && m.threads[1] == Thread(TimedOut, -1, 0, 0, Nothing)
    requires 2 in m.threads && 3 in m.threads && m.threads[3].pc == Idle
    ensures Exec(s, steps') == Some(m') && m'.list == [Entry(2, 1)] && m'.threads.Keys == m.threads.Keys
    ensures m'.threads[1].pc == TimedOut && m'.threads[2] == m.threads[2] && m'.threads[3].pc == Idle
  {
    assert m.list[1..] == [Entry(2, 1)] && m.list[1..][1..] == [];
    assert Matching(m.list, 1) == [1] + Matching(m.list[1..], 1);
    assert Woken(m.list, 1, 1) == [1];
    assert WithoutOldest(m.list, 1, 1) == WithoutOldest(m.list[1..], 1, 0);
    ExecThen(s, steps, WakeLock(3, 1, 1, 0));
    steps', m' := steps + [WakeLock(3, 1, 1, 0)], Apply(m, WakeLock(3, 1, 1, 0));
    ExecThen(s, steps', TokenAdd(3));
    steps', m' := steps' + [TokenAdd(3)], Apply(m', TokenAdd(3));
    ExecThen(s, steps', KernelWake(3));
    steps', m' := steps' + [KernelWake(3)], Apply(m', KernelWake(3));
  }

  // ---------- the entry point ----------

  /** The operation codes that ert_futex knows, without the flag for private futexes. */
  datatype Op = Wait | Wake | Requeue | WaitBitset | Other

  /** What a futex call does; Unsupported aborts the enclave. */
  datatype Request =
    | BadAddress
    | Unsupported
    | WaitFor(uaddr: nat, val: int, absolute: bool)
    | WakeUp(uaddr: nat, limit: nat, uaddr2: nat)

  /** The value of a 32-bit int as an unsigned int. */
  function Unsigned(val: int): nat
    requires -0x8000_0000 <= val < 0x8000_0000
  {
    if val < 0 then val + 0x1_0000_0000 else val
  }

  /** ert_futex; a val3 of -1 has all bits set. */
  function Dispatch(uaddr: nat, op: Op, val: int, uaddr2: nat, val3: int): Request
    requires -0x8000_0000 <= val < 0x8000_0000
  {
    if uaddr == 0 then BadAddress
    else if op == Wait then WaitFor(uaddr, val, false)
    else if op == Wake && val != 0 then WakeUp(uaddr, Unsigned(val), 0)
    else if op == Requeue && uaddr2 != 0 then WakeUp(uaddr, Unsigned(val), uaddr2)
    else if op == WaitBitset && val3 == -1 then WaitFor(uaddr, val, true)
    else Unsupported
  }

  /**
   Which calls wait, wake, fail and abort: waiting with a relative or an absolute timeout, a wake of at
   least one thread, and a requeue to some address are all that is supported.
   */
  lemma CallsSupported(uaddr: nat, op: Op, val: int, uaddr2: nat, val3: int)
    requires -0x8000_0000 <= val < 0x8000_0000
    ensures var r := Dispatch(uaddr, op, val, uaddr2, val3);
      && (r == BadAddress <==> uaddr == 0)
      && (r == WaitFor(uaddr, val, false) <==> uaddr != 0 && op == Wait)
      && (r == WaitFor(uaddr, val, true) <==> uaddr != 0 && op == WaitBitset && val3 == -1)
      && (r.WaitFor? ==> r == WaitFor(uaddr, val, op == WaitBitset))
      && (r.WakeUp? <==> uaddr != 0 && ((op == Wake && val != 0) || (op == Requeue && uaddr2 != 0)))
      && (r.WakeUp? ==> r.uaddr == uaddr && r.uaddr2 == (if op == Requeue then uaddr2 else 0))
  {
  }

  /**
   The number of threads that a call wakes: at most val and at most 128, and a negative val is no
   limit of its own.  A requeue to another address leaves nobody behind, without any limit.
   */
  lemma CallWakes(q: seq<Entry>, uaddr: nat, op: Op, val: int, uaddr2: nat, val3: int)
    requires -0x8000_0000 <= val < 0x8000_0000 && Dispatch(uaddr, op, val, uaddr2, val3).WakeUp?
    ensures var r, n := Dispatch(uaddr, op, val, uaddr2, val3), |Matching(q, uaddr)|;
      var left := Matching(AfterWake(q, r.uaddr, r.limit, r.uaddr2), uaddr);
      && |Woken(q, r.uaddr, r.limit)| == Min(n, if 0 <= val <= MAX_WAKE then val else MAX_WAKE)
      && (op == Wake ==> left == Matching(q, uaddr)[|Woken(q, r.uaddr, r.limit)|..])
      && (op == Requeue && uaddr2 != uaddr ==> left == [])
  {
    var r := Dispatch(uaddr, op, val, uaddr2, val3);
    MatchingAfter(q, uaddr, Min(r.limit, MAX_WAKE));
    if op == Requeue && uaddr2 != uaddr {
      RetargetMatching(WithoutOldest(q, uaddr, Min(r.limit, MAX_WAKE)), uaddr, uaddr2);
    }
  }
}
