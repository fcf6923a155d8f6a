/**
 The two-layer futex: _wait and _wake of src/ert/libc/ertfutex.c inside the enclave, and
 oe_sgx_thread_timedwait_ocall and oe_sgx_thread_wake_multiple_ocall of src/ert/host/core.c outside.

 Each section under the enclave's lock, each atomic addition to a host counter, each load of it and
 each kernel futex call is one step.  Steps of different threads interleave arbitrarily.
 */
module FutexProtocol {
  import opened Common
  import opened FutexQueue

  type Tcs = nat

  /** Where a thread is in a futex call. */
  datatype Pc =
    | Idle
    // _wait
    | BeforeHost                      // queued, about to call the host, or about to call it again
    | KernelCall                      // counter went from 0 to -1; about to call FUTEX_WAIT
    | Asleep                          // in the kernel's wait queue
    | Rechecking                      // FUTEX_WAIT returned without a timeout; about to load the counter
    | TimedOut                        // FUTEX_WAIT timed out; about to add 1 back
    | HostReturned(timedout: bool)    // back in the enclave, about to take the lock
    // _wake and ert_futex_wake_tcs
    | Tokens(rest: seq<Tcs>)          // the threads that still get a token
    | Signalling(target: Tcs, rest: seq<Tcs>)  // token given, about to call FUTEX_WAKE

  /** What a call returns; a canceled wait does not return. */
  datatype Result = Nothing | Zero | Timeout | WouldBlock | Canceled | Count(n: nat)

  /**
   A thread and the host event of its TCS.  wakes and zeroReturns count the tokens given to the event
   and the host waits that returned 0.  result is that of the last futex call, and Nothing while a
   wait is in progress; a wake knows its result when it starts.
   */
  datatype Thread = Thread(pc: Pc, event: int, wakes: nat, zeroReturns: nat, result: Result)

  datatype State = State(mem: map<nat, int>, list: seq<Entry>, threads: map<Tcs, Thread>)

  datatype Step =
    | Store(uaddr: nat, val: int)
    | WaitLock(t: Tcs, uaddr: nat, val: int)
    | HostAdd(t: Tcs)
    | OcallFails(t: Tcs)
    | KernelWait(t: Tcs)
    | KernelReturn(t: Tcs)
    | KernelTimeout(t: Tcs)
    | TimeoutAdd(t: Tcs)
    | Recheck(t: Tcs)
    | Relock(t: Tcs)
    | Cancel(t: Tcs)
    | WakeLock(t: Tcs, uaddr: nat, limit: nat, uaddr2: nat)
    | ExtraWake(t: Tcs, target: Tcs)
    | TokenAdd(t: Tcs)
    | KernelWake(t: Tcs)

  predicate Init(s: State) {
    && s.list == []
    && forall t :: t in s.threads ==> s.threads[t] == Thread(Idle, 0, 0, 0, Nothing)
  }

  function Load(s: State, uaddr: nat): int {
    if uaddr in s.mem then s.mem[uaddr] else 0
  }

  function WithPc(s: State, t: Tcs, pc: Pc): State
    requires t in s.threads
  {
    s.(threads := s.threads[t := s.threads[t].(pc := pc)])
  }

  /** The thread's call ends with the result, or begins if the result is Nothing. */
  function WithResult(s: State, t: Tcs, pc: Pc, result: Result): State
    requires t in s.threads
  {
    s.(threads := s.threads[t := s.threads[t].(pc := pc, result := result)])
  }

  predicate Enabled(s: State, step: Step) {
    step.Store? ||
    (step.t in s.threads &&
     var pc := s.threads[step.t].pc;
     match step
     case WaitLock(_, uaddr, _) => pc == Idle && uaddr != 0
     case HostAdd(_) => pc == BeforeHost
     case OcallFails(_) => pc == BeforeHost
     case KernelWait(_) => pc == KernelCall
     case KernelReturn(_) => pc == Asleep
     case KernelTimeout(_) => pc == Asleep
     case TimeoutAdd(_) => pc == TimedOut
     case Recheck(_) => pc == Rechecking
     case Relock(_) => pc.HostReturned?
     case Cancel(_) => pc.HostReturned?
     case WakeLock(_, uaddr, _, _) => pc == Idle && uaddr != 0
     case ExtraWake(_, target) => pc == Idle && target in s.threads
     case TokenAdd(_) => pc.Tokens? && pc.rest != [] && pc.rest[0] in s.threads
     case KernelWake(_) => pc.Signalling? && pc.target in s.threads)
  }

  /** The waker goes on with the remaining threads, or returns. */
  function Continue(rest: seq<Tcs>): Pc {
    if rest == [] then Idle else Tokens(rest)
  }

  function Apply(s: State, step: Step): State
    requires Enabled(s, step)
  {
    match step
    case Store(uaddr, val) => s.(mem := s.mem[uaddr := val])
    case WaitLock(t, uaddr, val) =>
      // Don't wait if *uaddr has already changed.
      if Load(s, uaddr) != val then WithResult(s, t, Idle, WouldBlock)
      else WithResult(s.(list := s.list + [Entry(t, uaddr)]), t, BeforeHost, Nothing)
    case HostAdd(t) =>
      var th := s.threads[t];
      if th.event == 0 then s.(threads := s.threads[t := th.(event := -1, pc := KernelCall)])
      else s.(threads := s.threads[t :=
        th.(event := th.event - 1, zeroReturns := th.zeroReturns + 1, pc := HostReturned(false))])
    case OcallFails(t) => WithPc(s, t, HostReturned(false))
    case KernelWait(t) => WithPc(s, t, if s.threads[t].event == -1 then Asleep else Rechecking)
    case KernelReturn(t) => WithPc(s, t, Rechecking)
    case KernelTimeout(t) => WithPc(s, t, TimedOut)
    case TimeoutAdd(t) =>
      var th := s.threads[t];
      s.(threads := s.threads[t := th.(event := th.event + 1, pc := HostReturned(true))])
    case Recheck(t) =>
      var th := s.threads[t];
      if th.event == -1 then WithPc(s, t, KernelCall)
      else s.(threads := s.threads[t := th.(zeroReturns := th.zeroReturns + 1, pc := HostReturned(false))])
    case Relock(t) =>
      if s.threads[t].pc.timedout then WithResult(s.(list := WithoutThread(s.list, t)), t, Idle, Timeout)
      // If self is no longer in the list, then it was woken.
      else if Queued(s.list, t) then WithPc(s, t, BeforeHost)
      else WithResult(s, t, Idle, Zero)
    case Cancel(t) => WithResult(s.(list := WithoutThread(s.list, t)), t, Idle, Canceled)
    case WakeLock(t, uaddr, limit, uaddr2) =>
      var woken := Woken(s.list, uaddr, limit);
      WithResult(s.(list := AfterWake(s.list, uaddr, limit, uaddr2)), t, Continue(woken), Count(|woken|))
    case ExtraWake(t, target) => WithPc(s, t, Tokens([target]))
    case TokenAdd(t) =>
      var rest := s.threads[t].pc.rest;
      var target := s.threads[rest[0]];
      var s' := s.(threads := s.threads[rest[0] := target.(event := target.event + 1, wakes := target.wakes + 1)]);
      WithPc(s', t, if target.event != 0 then Signalling(rest[0], rest[1..]) else Continue(rest[1..]))
    case KernelWake(t) =>
      var pc := s.threads[t].pc;
      var s' := if s.threads[pc.target].pc == Asleep then WithPc(s, pc.target, Rechecking) else s;
      WithPc(s', t, Continue(pc.rest))
  }

  /** The state after the steps, or None if one of them is not enabled when it is taken. */
  function Exec(s: State, steps: seq<Step>): Option<State> {
    if steps == [] then Some(s) else
      match Exec(s, steps[..|steps| - 1])
      case None => None
      case Some(m) =>
        var step := steps[|steps| - 1];
        if Enabled(m, step) then Some(Apply(m, step)) else None
  }

  // ---------- the invariant ----------

  predicate Waits(pc: Pc) {
    pc.BeforeHost? || InHost(pc) || pc.HostReturned?
  }

  /** The thread has taken 1 off its host counter and not yet settled that. */
  predicate InHost(pc: Pc) {
    pc.KernelCall? || pc.Asleep? || pc.Rechecking? || pc.TimedOut?
  }

  /** Before or inside a host wait that has neither consumed a token nor timed out. */
  predicate WaitsForToken(pc: Pc) {
    pc.BeforeHost? || pc.KernelCall? || pc.Asleep? || pc.Rechecking?
  }

  /** The tokens in the thread's host event that it has not consumed. */
  function Stored(th: Thread): int {
    th.event + if InHost(th.pc) then 1 else 0
  }

  function Rest(pc: Pc): seq<Tcs> {
    if pc.Tokens? || pc.Signalling? then pc.rest else []
  }

  /** A waker's local array still holds a token for t. */
  predicate TokenOnItsWay(s: State, t: Tcs) {
    exists w :: w in s.threads && t in Rest(s.threads[w].pc)
  }

  predicate SignalOnItsWay(s: State, t: Tcs) {
    exists w :: w in s.threads && s.threads[w].pc.Signalling? && s.threads[w].pc.target == t
  }

  predicate ListInv(s: State) {
    && (forall i: nat, j: nat :: i < j < |s.list| ==> s.list[i].tcs != s.list[j].tcs)
    && (forall i: nat :: i < |s.list| ==> s.list[i].tcs in s.threads && Waits(s.threads[s.list[i].tcs].pc))
  }

  predicate PcInv(s: State, pc: Pc) {
    && (forall x :: x in Rest(pc) ==> x in s.threads)
    && (pc.Tokens? ==> pc.rest != [])
    && (pc.Signalling? ==> pc.target in s.threads)
  }

  predicate EventInv(th: Thread) {
    && th.event == th.wakes - th.zeroReturns - (if InHost(th.pc) then 1 else 0)
    && 0 <= Stored(th)
  }

  predicate NotLost(s: State, t: Tcs)
    requires t in s.threads
  {
    && (WaitsForToken(s.threads[t].pc) && !Queued(s.list, t) ==> 0 < Stored(s.threads[t]) || TokenOnItsWay(s, t))
    && (s.threads[t].pc.Asleep? && s.threads[t].event != -1 ==> SignalOnItsWay(s, t))
  }

  predicate Inv(s: State) {
    && ListInv(s)
    && forall t :: t in s.threads ==> EventInv(s.threads[t]) && PcInv(s, s.threads[t].pc) && NotLost(s, t)
  }

  // ---------- list lemmas ----------

  lemma {:induction false} WithoutThreadMeans(q: seq<Entry>, t: Tcs)
    requires DistinctThreads(q)
    ensures DistinctThreads(WithoutThread(q, t)) && !Queued(WithoutThread(q, t), t)
    ensures forall x :: x != t ==> (Queued(WithoutThread(q, t), x) <==> Queued(q, x))
  {
    if q != [] {
      var rest := WithoutThread(q[1..], t);
      assert DistinctThreads(q[1..]);
      WithoutThreadMeans(q[1..], t);
      QueuedSplit(q, t);
      forall x ensures Queued(q, x) <==> q[0].tcs == x || Queued(q[1..], x) {
        QueuedSplit(q, x);
      }
      if q[0].tcs != t {
        forall x ensures Queued(WithoutThread(q, t), x) <==> q[0].tcs == x || Queued(rest, x) {
          QueuedSplit(WithoutThread(q, t), x);
          assert WithoutThread(q, t)[1..] == rest;
        }
        HeadIsNew(q);
        ConsDistinct(q[0], rest);
      } else {
        HeadIsNew(q);
      }
    }
  }

  lemma HeadIsNew(q: seq<Entry>)
    requires DistinctThreads(q) && q != []
    ensures !Queued(q[1..], q[0].tcs)
  {
  }

  lemma ConsDistinct(e: Entry, q: seq<Entry>)
    requires DistinctThreads(q) && !Queued(q, e.tcs)
    ensures DistinctThreads([e] + q)
  {
  }

  /** A wake call splits the queued threads into the woken and the still queued ones. */
  lemma {:induction false} WakeSplits(q: seq<Entry>, uaddr: nat, n: nat)
    requires DistinctThreads(q)
    ensures var taken := Matching(q, uaddr)[..Min(n, |Matching(q, uaddr)|)];
      var rest := WithoutOldest(q, uaddr, n);
      && DistinctThreads(rest)
      && (forall x :: Queued(q, x) <==> x in taken || Queued(rest, x))
      && (forall x :: x in taken ==> !Queued(rest, x))
  {
    var all := Matching(q, uaddr);
    var taken, rest := all[..Min(n, |all|)], WithoutOldest(q, uaddr, n);
    forall x ensures Queued(q, x) <==> x in taken || Queued(rest, x) {
      WokenOrQueued(q, uaddr, n, x);
    }
    if q != [] {
      assert DistinctThreads(q[1..]);
      HeadIsNew(q);
      var all' := Matching(q[1..], uaddr);
      if q[0].uaddr == uaddr && 0 < n {
        WakeSplits(q[1..], uaddr, n - 1);
        assert taken == [q[0].tcs] + all'[..Min(n - 1, |all'|)];
      } else {
        WakeSplits(q[1..], uaddr, n);
        var rest' := WithoutOldest(q[1..], uaddr, n);
        ConsDistinct(q[0], rest');
        forall x | x in taken ensures !Queued(rest, x) {
          QueuedSplit(rest, x);
          assert rest[1..] == rest';
        }
      }
    }
  }

  // ---------- each step keeps the invariant ----------

  /** Which threads are queued after the step. */
  lemma QueueChange(s: State, step: Step, x: Tcs)
    requires ListInv(s) && Enabled(s, step)
    ensures DistinctThreads(Apply(s, step).list)
    ensures Queued(Apply(s, step).list, x) <==>
      match step
      case WaitLock(t, uaddr, val) => Queued(s.list, x) || (x == t && Load(s, uaddr) == val)
      case Relock(t) => Queued(s.list, x) && !(x == t && s.threads[t].pc.timedout)
      case Cancel(t) => Queued(s.list, x) && x != t
      case WakeLock(_, uaddr, limit, _) => Queued(s.list, x) && x !in Woken(s.list, uaddr, limit)
      case _ => Queued(s.list, x)
  {
    match step
    case WaitLock(t, uaddr, val) =>
      var list := s.list + [Entry(t, uaddr)];
      assert list[|s.list|].tcs == t;
      assert Queued(s.list, x) ==> Queued(list, x) by {
        if i: nat :| i < |s.list| && s.list[i].tcs == x {
          assert list[i].tcs == x;
        }
      }
    case Relock(t) => WithoutThreadMeans(s.list, t);
    case Cancel(t) => WithoutThreadMeans(s.list, t);
    case WakeLock(_, uaddr, limit, uaddr2) =>
      WakeSplits(s.list, uaddr, Min(limit, MAX_WAKE));
      var rest := WithoutOldest(s.list, uaddr, Min(limit, MAX_WAKE));
      var list := AfterWake(s.list, uaddr, limit, uaddr2);
      assert |list| == |rest| && forall i: nat :: i < |rest| ==> list[i].tcs == rest[i].tcs;
      assert Queued(list, x) <==> Queued(rest, x) by {
        if i: nat :| i < |rest| && rest[i].tcs == x {
          assert list[i].tcs == x;
        }
      }
    case _ =>
  }

  lemma StepKeepsListInv(s: State, step: Step)
    requires ListInv(s) && Enabled(s, step)
    ensures ListInv(Apply(s, step))
  {
    var s' := Apply(s, step);
    QueueChange(s, step, 0);
    forall i: nat | i < |s'.list|
      ensures s'.list[i].tcs in s'.threads && Waits(s'.threads[s'.list[i].tcs].pc)
    {
      var x := s'.list[i].tcs;
      assert Queued(s'.list, x);
      QueueChange(s, step, x);
    }
  }

  lemma StepKeepsEventInv(s: State, step: Step, x: Tcs)
    requires Enabled(s, step) && x in s.threads && EventInv(s.threads[x])
    ensures x in Apply(s, step).threads && EventInv(Apply(s, step).threads[x])
  {
  }

  lemma StepKeepsPcInv(s: State, step: Step, x: Tcs)
    requires ListInv(s) && Enabled(s, step) && x in s.threads && PcInv(s, s.threads[x].pc)
    ensures x in Apply(s, step).threads && PcInv(Apply(s, step), Apply(s, step).threads[x].pc)
  {
    match step
    case WakeLock(t, uaddr, limit, _) =>
      forall y | y in Woken(s.list, uaddr, limit) ensures y in s.threads {
        WakeSplits(s.list, uaddr, Min(limit, MAX_WAKE));
        assert Queued(s.list, y);
      }
    case _ =>
  }

  /** A token on its way stays on its way, until it is added to the host event. */
  lemma TokenStays(s: State, step: Step, x: Tcs)
    requires Enabled(s, step) && TokenOnItsWay(s, x)
    ensures TokenOnItsWay(Apply(s, step), x) || (step.TokenAdd? && Rest(s.threads[step.t].pc)[0] == x)
  {
    var s' := Apply(s, step);
    var w :| w in s.threads && x in Rest(s.threads[w].pc);
    assert w in s'.threads;
    if step.TokenAdd? && step.t == w {
      var rest := s.threads[w].pc.rest;
      assert rest == [rest[0]] + rest[1..];
      assert x in rest[1..] ==> x in Rest(s'.threads[w].pc);
    } else {
      assert x in Rest(s'.threads[w].pc);
    }
  }

  lemma SignalStays(s: State, step: Step, x: Tcs)
    requires Enabled(s, step) && SignalOnItsWay(s, x)
    ensures SignalOnItsWay(Apply(s, step), x) || (step.KernelWake? && s.threads[step.t].pc.target == x)
  {
    var s' := Apply(s, step);
    var w :| w in s.threads && s.threads[w].pc.Signalling? && s.threads[w].pc.target == x;
    if !(step.KernelWake? && step.t == w) {
      assert w in s'.threads && s'.threads[w].pc == s.threads[w].pc;
    }
  }

  lemma StepKeepsToken(s: State, step: Step, x: Tcs)
    requires Inv(s) && Enabled(s, step) && x in s.threads
    ensures var s' := Apply(s, step);
      && x in s'.threads
      && (WaitsForToken(s'.threads[x].pc) && !Queued(s'.list, x) ==> 0 < Stored(s'.threads[x]) || TokenOnItsWay(s', x))
  {
    var s' := Apply(s, step);
    if WaitsForToken(s'.threads[x].pc) && !Queued(s'.list, x) {
      QueueChange(s, step, x);
      assert EventInv(s.threads[x]) && NotLost(s, x);
      if step.WakeLock? && x in Woken(s.list, step.uaddr, step.limit) {
        assert x in Rest(s'.threads[step.t].pc);
      } else if TokenOnItsWay(s, x) {
        TokenStays(s, step, x);
      }
    }
  }

  lemma StepKeepsSignal(s: State, step: Step, x: Tcs)
    requires Inv(s) && Enabled(s, step) && x in s.threads
    ensures var s' := Apply(s, step);
      && x in s'.threads
      && (s'.threads[x].pc.Asleep? && s'.threads[x].event != -1 ==> SignalOnItsWay(s', x))
  {
    var s' := Apply(s, step);
    if s'.threads[x].pc.Asleep? && s'.threads[x].event != -1 {
      assert EventInv(s.threads[x]) && NotLost(s, x);
      if step.TokenAdd? && s.threads[step.t].pc.rest[0] == x && s.threads[x].event == -1 {
        assert s'.threads[step.t].pc.Signalling?;
      } else {
        SignalStays(s, step, x);
      }
    }
  }

  lemma StepKeepsInv(s: State, step: Step)
    requires Inv(s) && Enabled(s, step)
    ensures Inv(Apply(s, step))
  {
    StepKeepsListInv(s, step);
    var s' := Apply(s, step);
    forall x | x in s'.threads ensures EventInv(s'.threads[x]) && PcInv(s', s'.threads[x].pc) && NotLost(s', x) {
      assert x in s.threads;
      StepKeepsEventInv(s, step, x);
      StepKeepsPcInv(s, step, x);
      StepKeepsToken(s, step, x);
      StepKeepsSignal(s, step, x);
    }
  }

  lemma {:induction false} ReachableInv(s: State, steps: seq<Step>)
    requires Init(s) && Exec(s, steps).Some?
    ensures Inv(Exec(s, steps).value)
  {
    if steps != [] {
      ReachableInv(s, steps[..|steps| - 1]);
      StepKeepsInv(Exec(s, steps[..|steps| - 1]).value, steps[|steps| - 1]);
    }
  }

  // ---------- theorems over every run ----------

  /**
   No lost wake-up across both layers: a thread before or inside its host wait that is no longer in
   the wait list has a token in its host event or in the local array of a waker.
   */
  lemma NoLostWakeUp(s: State, steps: seq<Step>, s': State, t: Tcs)
    requires Init(s) && Exec(s, steps) == Some(s') && t in s'.threads
    requires WaitsForToken(s'.threads[t].pc) && !Queued(s'.list, t)
    ensures 0 < Stored(s'.threads[t]) || TokenOnItsWay(s', t)
  {
    ReachableInv(s, steps);
    assert NotLost(s', t);
  }

  /** The host counter balances the tokens given and the waits that returned 0. */
  lemma HostCounterBalance(s: State, steps: seq<Step>, s': State, t: Tcs)
    requires Init(s) && Exec(s, steps) == Some(s') && t in s'.threads
    ensures var th := s'.threads[t];
      && th.event == th.wakes - th.zeroReturns - (if InHost(th.pc) then 1 else 0)
      && th.zeroReturns <= th.wakes
  {
    ReachableInv(s, steps);
    assert EventInv(s'.threads[t]);
  }

  /** A thread asleep in the kernel although its counter is not -1 has a FUTEX_WAKE coming. */
  lemma SleeperIsSignalled(s: State, steps: seq<Step>, s': State, t: Tcs)
    requires Init(s) && Exec(s, steps) == Some(s') && t in s'.threads
    requires s'.threads[t].pc.Asleep? && s'.threads[t].event != -1
    ensures SignalOnItsWay(s', t)
  {
    ReachableInv(s, steps);
    assert NotLost(s', t);
  }

  /** Once no wake call is in progress, every thread asleep in the kernel is still queued. */
  lemma QuiescentSleepersAreQueued(s: State, steps: seq<Step>, s': State, t: Tcs)
    requires Init(s) && Exec(s, steps) == Some(s') && t in s'.threads && s'.threads[t].pc.Asleep?
    requires forall w :: w in s'.threads ==> !s'.threads[w].pc.Tokens? && !s'.threads[w].pc.Signalling?
    ensures Queued(s'.list, t) && s'.threads[t].event == -1
  {
    ReachableInv(s, steps);
    assert NotLost(s', t);
  }

  /** Step j took the entry of t on address uaddr off the list, and t began no wait since. */
  predicate PoppedAt(s: State, steps: seq<Step>, t: Tcs, uaddr: nat, j: nat) {
    && j < |steps| && Exec(s, steps[..j]).Some?
    && steps[j].WakeLock? && steps[j].uaddr == uaddr
    && Entry(t, uaddr) in Exec(s, steps[..j]).value.list
    && t in Woken(Exec(s, steps[..j]).value.list, uaddr, steps[j].limit)
    && forall k :: j < k < |steps| ==> !(steps[k].WaitLock? && steps[k].t == t)
  }

  /** Only a wake call makes a waiting thread unqueued. */
  lemma UnqueuingStep(m: State, step: Step, t: Tcs)
    requires ListInv(m) && Enabled(m, step) && t in m.threads
    requires Waits(Apply(m, step).threads[t].pc) && !Queued(Apply(m, step).list, t)
    ensures Waits(m.threads[t].pc) && !(step.WaitLock? && step.t == t)
    ensures Queued(m.list, t) ==> step.WakeLock? && t in Woken(m.list, step.uaddr, step.limit)
  {
    QueueChange(m, step, t);
  }

  lemma PoppedBefore(s: State, steps: seq<Step>, t: Tcs, uaddr: nat, j: nat)
    requires steps != [] && PoppedAt(s, steps[..|steps| - 1], t, uaddr, j)
    requires var last := steps[|steps| - 1]; !(last.WaitLock? && last.t == t)
    ensures PoppedAt(s, steps, t, uaddr, j)
  {
    var before := steps[..|steps| - 1];
    assert before[..j] == steps[..j] && before[j] == steps[j];
    forall k | j < k < |steps| ensures !(steps[k].WaitLock? && steps[k].t == t) {
      assert k < |before| ==> before[k] == steps[k];
    }
  }

  /** A waiting thread that is not queued was popped from the address it was queued under. */
  lemma {:induction false} UnqueuedWasPopped(s: State, steps: seq<Step>, s': State, t: Tcs) returns (uaddr: nat, j: nat)
    requires Init(s) && Exec(s, steps) == Some(s') && t in s'.threads
    requires Waits(s'.threads[t].pc) && !Queued(s'.list, t)
    ensures PoppedAt(s, steps, t, uaddr, j)
  {
    var n := |steps| - 1;
    var before, step := steps[..n], steps[n];
    var m := Exec(s, before).value;
    ReachableInv(s, before);
    UnqueuingStep(m, step, t);
    if !Queued(m.list, t) {
      uaddr, j := UnqueuedWasPopped(s, before, m, t);
      PoppedBefore(s, steps, t, uaddr, j);
    } else {
      uaddr, j := step.uaddr, n;
      WokenIsQueuedThere(m.list, uaddr, step.limit, t);
    }
  }

  lemma {:induction false} MatchingIsQueued(q: seq<Entry>, uaddr: nat, t: Tcs)
    requires t in Matching(q, uaddr)
    ensures Entry(t, uaddr) in q
  {
    if q[0] != Entry(t, uaddr) {
      MatchingIsQueued(q[1..], uaddr, t);
    }
  }

  lemma WokenIsQueuedThere(q: seq<Entry>, uaddr: nat, limit: nat, t: Tcs)
    requires t in Woken(q, uaddr, limit)
    ensures Entry(t, uaddr) in q
  {
    MatchingIsQueued(q, uaddr, t);
  }

  /**
   A futex wait returns 0 only if this wait's own entry was popped by a _wake on the address it was
   queued under at that moment.  Stale tokens only cause another round of the wait.
   */
  lemma ZeroMeansPopped(s: State, steps: seq<Step>, s': State, t: Tcs) returns (uaddr: nat, j: nat)
    requires Init(s) && Exec(s, steps) == Some(s')
    requires Enabled(s', Relock(t)) && !s'.threads[t].pc.timedout
    requires Apply(s', Relock(t)).threads[t].pc == Idle
    ensures PoppedAt(s, steps, t, uaddr, j)
  {
    uaddr, j := UnqueuedWasPopped(s, steps, s', t);
  }

  predicate OwnStep(step: Step, t: Tcs) {
    !step.Store? && step.t == t
  }

  /** A wait takes the timeout branch only if its last host wait really timed out in the kernel. */
  lemma {:induction false} TimeoutsAreReal(s: State, steps: seq<Step>, s': State, t: Tcs) returns (j: nat)
    requires Init(s) && Exec(s, steps) == Some(s') && t in s'.threads && s'.threads[t].pc == HostReturned(true)
    ensures j < |steps| && steps[j] == TimeoutAdd(t)
    ensures forall k: nat :: j < k < |steps| ==> !OwnStep(steps[k], t)
  {
    var n := |steps| - 1;
    var before, step := steps[..n], steps[n];
    if OwnStep(step, t) {
      j := n;
    } else {
      j := TimeoutsAreReal(s, before, Exec(s, before).value, t);
      assert before[j] == steps[j];
      forall k: nat | j < k < |steps| ensures !OwnStep(steps[k], t) {
        assert k < n ==> before[k] == steps[k];
      }
    }
  }

  // ---------- a popped waiter is never stuck ----------

  /** Steps that only finish calls in progress: no new call, no timeout, no cancellation, no spurious return. */
  predicate Finishing(step: Step) {
    step.HostAdd? || step.KernelWait? || step.Recheck? || step.Relock? || step.TokenAdd? || step.KernelWake?
  }

  predicate AllFinishing(steps: seq<Step>) {
    forall i: nat :: i < |steps| ==> Finishing(steps[i])
  }

  lemma ExecThen(s: State, steps: seq<Step>, step: Step)
    requires Exec(s, steps).Some? && Enabled(Exec(s, steps).value, step)
    ensures Exec(s, steps + [step]) == Some(Apply(Exec(s, steps).value, step))
  {
    assert (steps + [step])[..|steps + [step]| - 1] == steps;
  }

  lemma {:induction false} ExecConcat(s: State, a: seq<Step>, b: seq<Step>)
    requires Exec(s, a).Some? && Exec(Exec(s, a).value, b).Some?
    ensures Exec(s, a + b) == Exec(Exec(s, a).value, b)
  {
    if b == [] {
      assert a + b == a;
    } else {
      ExecConcat(s, a, b[..|b| - 1]);
      assert (a + b)[..|a + b| - 1] == a + b[..|b| - 1];
    }
  }

  predicate Popped(s: State, t: Tcs) {
    t in s.threads && !Queued(s.list, t) &&
    (WaitsForToken(s.threads[t].pc) || s.threads[t].pc == HostReturned(false))
  }

  /** The steps that a popped thread with a stored token has left. */
  function StepsLeft(pc: Pc): nat {
    match pc
    case HostReturned(_) => 1
    case Rechecking => 2
    case BeforeHost => 2
    case _ => 3
  }

  /** The next step towards the return of a popped thread that sleeps in the kernel is that of its waker. */
  function NextStep(pc: Pc, t: Tcs, waker: Tcs): Step {
    match pc
    case HostReturned(_) => Relock(t)
    case Rechecking => Recheck(t)
    case BeforeHost => HostAdd(t)
    case Asleep => KernelWake(waker)
    case _ => KernelWait(t)
  }

  /** With its token stored in the host event, a popped thread returns 0 after at most three steps. */
  lemma ReturnWithToken(s: State, t: Tcs) returns (steps: seq<Step>)
    requires Inv(s) && Popped(s, t)
    requires WaitsForToken(s.threads[t].pc) ==> 0 < Stored(s.threads[t])
    ensures Exec(s, steps).Some? && AllFinishing(steps) && |steps| <= StepsLeft(s.threads[t].pc) <= 3
    ensures t in Exec(s, steps).value.threads && Exec(s, steps).value.threads[t].pc == Idle
    decreases StepsLeft(s.threads[t].pc)
  {
    assert NotLost(s, t);
    var pc := s.threads[t].pc;
    var waker := t;
    if pc.Asleep? {
      waker :| waker in s.threads && s.threads[waker].pc.Signalling? && s.threads[waker].pc.target == t;
    }
    var step := NextStep(pc, t, waker);
    NextStepTowardsReturn(s, t, waker);
    ExecOne(s, step);
    if pc.HostReturned? {
      steps := [step];
    } else {
      StepKeepsInv(s, step);
      var rest := ReturnWithToken(Apply(s, step), t);
      ExecConcat(s, [step], rest);
      steps := [step] + rest;
    }
  }

  lemma ExecOne(s: State, step: Step)
    requires Enabled(s, step)
    ensures Exec(s, [step]) == Some(Apply(s, step))
  {
    assert [step][..0] == [];
  }

  lemma NextStepTowardsReturn(s: State, t: Tcs, waker: Tcs)
    requires Popped(s, t) && (WaitsForToken(s.threads[t].pc) ==> 0 < Stored(s.threads[t]))
    requires s.threads[t].pc.Asleep? ==>
      waker in s.threads && s.threads[waker].pc.Signalling? && s.threads[waker].pc.target == t
    ensures var pc, step := s.threads[t].pc, NextStep(s.threads[t].pc, t, waker);
      && Finishing(step) && Enabled(s, step)
      && var m := Apply(s, step);
         if pc.HostReturned? then t in m.threads && m.threads[t].pc == Idle
         else
          && Popped(m, t) && StepsLeft(m.threads[t].pc) < StepsLeft(pc)
          && (WaitsForToken(m.threads[t].pc) ==> 0 < Stored(m.threads[t]))
  {
  }

  /** A waker that still holds a token for a popped thread can hand it over. */
  lemma {:induction false} HandOver(s: State, t: Tcs, w: Tcs) returns (steps: seq<Step>)
    requires Inv(s) && Popped(s, t) && WaitsForToken(s.threads[t].pc)
    requires w in s.threads && t in Rest(s.threads[w].pc)
    ensures Exec(s, steps).Some? && AllFinishing(steps)
    ensures var s' := Exec(s, steps).value; Inv(s') && Popped(s', t) && 0 < Stored(s'.threads[t])
    decreases |Rest(s.threads[w].pc)|, s.threads[w].pc.Signalling?
  {
    assert PcInv(s, s.threads[w].pc);
    var step := if s.threads[w].pc.Signalling? then KernelWake(w) else TokenAdd(w);
    var m := Apply(s, step);
    StepKeepsInv(s, step);
    ExecOne(s, step);
    var rest := s.threads[w].pc.rest;
    if step.TokenAdd? && rest[0] == t {
      assert EventInv(s.threads[t]);
      steps := [step];
    } else {
      assert rest == [rest[0]] + rest[1..];
      var more := HandOver(m, t, w);
      ExecConcat(s, [step], more);
      steps := [step] + more;
    }
  }

  /**
   In every reachable state, a waiter that was popped can return 0 by steps that only finish calls
   already in progress: nothing it needs was lost.
   */
  lemma PoppedWaiterCanReturn(s: State, run: seq<Step>, s': State, t: Tcs) returns (steps: seq<Step>)
    requires Init(s) && Exec(s, run) == Some(s') && Popped(s', t)
    ensures Exec(s', steps).Some? && AllFinishing(steps)
    ensures t in Exec(s', steps).value.threads && Exec(s', steps).value.threads[t].pc == Idle
  {
    ReachableInv(s, run);
    assert NotLost(s', t);
    if WaitsForToken(s'.threads[t].pc) && Stored(s'.threads[t]) <= 0 {
      var w :| w in s'.threads && t in Rest(s'.threads[w].pc);
      var first := HandOver(s', t, w);
      var second := ReturnWithToken(Exec(s', first).value, t);
      ExecConcat(s', first, second);
      steps := first + second;
    } else {
      steps := ReturnWithToken(s', t);
    }
  }

  // ---------- wake calls are fair ----------

  /** One more than the position of the last _wait call of the thread in the run, or 0. */
  function LastWait(steps: seq<Step>, t: Tcs): (n: nat)
    ensures n <= |steps|
  {
    if steps == [] then 0
    else if steps[|steps| - 1].WaitLock? && steps[|steps| - 1].t == t then |steps|
    else LastWait(steps[..|steps| - 1], t)
  }

  predicate InOrder(q: seq<Entry>, steps: seq<Step>) {
    forall i: nat, j: nat :: i < j < |q| ==> LastWait(steps, q[i].tcs) < LastWait(steps, q[j].tcs)
  }

  /** The thread began its wait before all threads in the queue. */
  ghost predicate BeforeAll(t: Tcs, q: seq<Entry>, steps: seq<Step>) {
    forall x :: Queued(q, x) ==> LastWait(steps, t) < LastWait(steps, x)
  }

  lemma OrderSplit(q: seq<Entry>, steps: seq<Step>)
    requires q != []
    ensures InOrder(q, steps) <==> InOrder(q[1..], steps) && BeforeAll(q[0].tcs, q[1..], steps)
  {
    if InOrder(q, steps) {
      forall x | Queued(q[1..], x) ensures LastWait(steps, q[0].tcs) < LastWait(steps, x) {
        var i: nat :| i < |q[1..]| && q[1..][i].tcs == x;
        assert q[i + 1].tcs == x;
      }
    }
    if InOrder(q[1..], steps) && BeforeAll(q[0].tcs, q[1..], steps) {
      forall i: nat, j: nat | i < j < |q| ensures LastWait(steps, q[i].tcs) < LastWait(steps, q[j].tcs) {
        assert q[1..][j - 1] == q[j];
        if i > 0 {
          assert q[1..][i - 1] == q[i];
        } else {
          assert Queued(q[1..], q[j].tcs);
        }
      }
    }
  }

  lemma {:induction false} WithoutKeepsOrder(q: seq<Entry>, steps: seq<Step>, t: Tcs)
    requires InOrder(q, steps) && DistinctThreads(q)
    ensures InOrder(WithoutThread(q, t), steps)
  {
    if q != [] {
      OrderSplit(q, steps);
      assert DistinctThreads(q[1..]);
      WithoutKeepsOrder(q[1..], steps, t);
      if q[0].tcs != t {
        WithoutThreadMeans(q[1..], t);
        HeadIsNew(q);
        OrderSplit(WithoutThread(q, t), steps);
        assert WithoutThread(q, t)[1..] == WithoutThread(q[1..], t);
      }
    }
  }

  /** A wake call keeps the order, and takes each thread before any other that waits on the address. */
  lemma {:induction false} WakeKeepsOrder(q: seq<Entry>, steps: seq<Step>, uaddr: nat, n: nat)
    requires InOrder(q, steps)
    ensures InOrder(WithoutOldest(q, uaddr, n), steps)
    ensures forall x, y | x in Matching(q, uaddr)[..Min(n, |Matching(q, uaddr)|)] ::
      Entry(y, uaddr) in WithoutOldest(q, uaddr, n) ==> LastWait(steps, x) < LastWait(steps, y)
  {
    if q != [] {
      OrderSplit(q, steps);
      var m := if q[0].uaddr == uaddr && 0 < n then n - 1 else n;
      WakeKeepsOrder(q[1..], steps, uaddr, m);
      var rest, all := WithoutOldest(q, uaddr, n), Matching(q, uaddr);
      var rest', all' := WithoutOldest(q[1..], uaddr, m), Matching(q[1..], uaddr);
      forall x ensures Queued(rest', x) ==> Queued(q[1..], x) {
        WokenOrQueued(q[1..], uaddr, m, x);
      }
      if m < n {
        assert all[..Min(n, |all|)] == [q[0].tcs] + all'[..Min(m, |all'|)];
        forall y | Entry(y, uaddr) in rest ensures LastWait(steps, q[0].tcs) < LastWait(steps, y) {
          assert Queued(rest', y);
        }
      } else {
        assert rest[1..] == rest';
        OrderSplit(rest, steps);
        if 0 < n {
          assert all == all';
        }
      }
    }
  }

  lemma OrderByThreads(p: seq<Entry>, q: seq<Entry>, steps: seq<Step>)
    requires |p| == |q| && InOrder(q, steps)
    requires forall i: nat :: i < |q| ==> p[i].tcs == q[i].tcs
    ensures InOrder(p, steps)
  {
  }

  lemma {:induction false} ListInOrder(s: State, steps: seq<Step>)
    requires Init(s) && Exec(s, steps).Some?
    ensures InOrder(Exec(s, steps).value.list, steps)
  {
    if steps != [] {
      var before, step := steps[..|steps| - 1], steps[|steps| - 1];
      var m := Exec(s, before).value;
      ListInOrder(s, before);
      ReachableInv(s, before);
      assert InOrder(m.list, steps) by {
        forall i: nat | i < |m.list| ensures LastWait(steps, m.list[i].tcs) == LastWait(before, m.list[i].tcs) {
          assert Waits(m.threads[m.list[i].tcs].pc);
        }
      }
      match step
      case WaitLock(t, uaddr, val) => assert LastWait(steps, t) == |steps|;
      case Relock(t) => WithoutKeepsOrder(m.list, steps, t);
      case Cancel(t) => WithoutKeepsOrder(m.list, steps, t);
      case WakeLock(_, uaddr, limit, uaddr2) =>
        WakeKeepsOrder(m.list, steps, uaddr, Min(limit, MAX_WAKE));
        OrderByThreads(Apply(m, step).list, WithoutOldest(m.list, uaddr, Min(limit, MAX_WAKE)), steps);
      case _ =>
    }
  }

  /** A wake call never passes over a thread for one that began to wait later on the same address. */
  lemma WakesLongestWaiting(s: State, steps: seq<Step>, s': State, step: Step, x: Tcs, y: Tcs)
    requires Init(s) && Exec(s, steps) == Some(s') && Enabled(s', step)
    requires step.WakeLock? && x in Woken(s'.list, step.uaddr, step.limit)
    requires Entry(y, step.uaddr) in s'.list && y !in Woken(s'.list, step.uaddr, step.limit)
    ensures LastWait(steps, x) < LastWait(steps, y)
  {
    ListInOrder(s, steps);
    var n := Min(step.limit, MAX_WAKE);
    WakeKeepsOrder(s'.list, steps, step.uaddr, n);
    StaysThere(s'.list, step.uaddr, n, y);
  }

  lemma {:induction false} StaysThere(q: seq<Entry>, uaddr: nat, n: nat, y: Tcs)
    requires Entry(y, uaddr) in q && y !in Matching(q, uaddr)[..Min(n, |Matching(q, uaddr)|)]
    ensures Entry(y, uaddr) in WithoutOldest(q, uaddr, n)
  {
    var all, all' := Matching(q, uaddr), Matching(q[1..], uaddr);
    if q[0].uaddr == uaddr && 0 < n {
      assert all[..Min(n, |all|)] == [q[0].tcs] + all'[..Min(n - 1, |all'|)];
      StaysThere(q[1..], uaddr, n - 1, y);
    } else if q[0] != Entry(y, uaddr) {
      StaysThere(q[1..], uaddr, n, y);
    }
  }
}
