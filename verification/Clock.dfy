/**
 The monotonic clock of src/ertlibc/time.cpp: a sequence-lock read of timestamps that the host
 kernel publishes in shared memory, followed by a clamp that never goes backwards.
 */
module Clock {
  import opened Common

  datatype Timestamp = Timestamp(sec: int, nsec: int)

  const ZERO := Timestamp(0, 0)

  predicate Before(a: Timestamp, b: Timestamp) {
    a.sec < b.sec || (a.sec == b.sec && a.nsec < b.nsec)
  }

  predicate InRange(t: Timestamp) {
    0 <= t.nsec < 1_000_000_000
  }

  // ---------- the clamp ----------

  class MonotonicClamp {
    var last: Timestamp

    constructor ()
      ensures last == ZERO
    {
      last := ZERO;
    }

    method EnsureMonotonic(timestamp: Timestamp) returns (r: Timestamp)
      modifies this
      ensures last == r == Clamp(old(last), timestamp)
    {
      if timestamp.sec < last.sec || (timestamp.sec == last.sec && timestamp.nsec < last.nsec) {
        r := last;
      } else {
        r := timestamp;
        last := timestamp;
      }
    }
  }

  /** The later of two timestamps. */
  function Clamp(last: Timestamp, t: Timestamp): (r: Timestamp)
    ensures r == last || r == t
    ensures !Before(r, last) && !Before(r, t)
  {
    if Before(t, last) then last else t
  }

  /** m is the lexicographic maximum of (0, 0) and the first n raw values. */
  predicate IsRunningMax(raws: seq<Timestamp>, n: nat, m: Timestamp)
    requires n <= |raws|
  {
    && (m == ZERO || exists i: nat :: i < n && raws[i] == m)
    && !Before(m, ZERO)
    && forall i: nat :: i < n ==> !Before(m, raws[i])
  }

  lemma RunningMaxExtends(raws: seq<Timestamp>, n: nat, m: Timestamp)
    requires n < |raws| && IsRunningMax(raws, n, m)
    ensures IsRunningMax(raws, n + 1, Clamp(m, raws[n]))
  {
    assert raws[n] == Clamp(m, raws[n]) ==> exists i: nat :: i < n + 1 && raws[i] == Clamp(m, raws[n]);
  }

  // ---------- the protocol ----------

  const SEQ_RANGE: nat := 0x1_0000_0000
  type Tid = nat

  /** The kernel's progress through one update of the shared timestamp. */
  datatype Writer = Quiet | Writing(t: Timestamp, secWritten: bool, nsecWritten: bool)

  /** An accepted timestamp; wrapped tells that 2^32 or more increments fell into the read. */
  datatype Accepted = Accepted(raw: Timestamp, vdso: bool, wrapped: bool)

  /** A reader of the monotonic clock.  start is the full sequence counter at its first load of the round. */
  datatype Reader =
    | Out
    | Locked(vdso: bool)
    | GotSeq(seen: nat, start: nat)
    | GotSec(seen: nat, start: nat, sec: int)
    | GotNsec(seen: nat, start: nat, t: Timestamp)
    // the clamp
    | Comparing(a: Accepted)
    | Compared(a: Accepted, lastSec: int)
    | StoringSec(a: Accepted, prev: Timestamp)
    | StoringNsec(a: Accepted, prev: Timestamp)
    | Releasing(a: Accepted, prev: Timestamp, result: Timestamp)

  /** What one call accepted and what it returned. */
  datatype Reading = Reading(a: Accepted, result: Timestamp)

  /**
   counter is the unbounded number of increments; memory holds it modulo 2^32.  published lists
   every timestamp the kernel completed, log every reading in the order of the unlocks.
   */
  datatype State = State(
    counter: nat, mem: Timestamp, writer: Writer, published: seq<Timestamp>,
    lock: Option<Tid>, readers: map<Tid, Reader>, last: Timestamp, log: seq<Reading>, aborted: bool)

  datatype Step =
    | BeginUpdate(t: Timestamp)
    | WriteSec
    | WriteNsec
    | EndUpdate
    | Lock(tid: Tid, vdso: bool)
    | OcallResult(tid: Tid, raw: Timestamp)
    | OcallFailed(tid: Tid)
    | LoadSeq(tid: Tid)
    | LoadSec(tid: Tid)
    | LoadNsec(tid: Tid)
    | Recheck(tid: Tid)
    | LoadLastSec(tid: Tid)
    | LoadLastNsec(tid: Tid)
    | StoreLastSec(tid: Tid)
    | StoreLastNsec(tid: Tid)
    | Unlock(tid: Tid)

  predicate Init(s: State) {
    && s.counter == 0 && s.writer == Quiet && s.published == [s.mem]
    && s.lock == None && s.last == ZERO && s.log == [] && !s.aborted
    && forall t :: t in s.readers ==> s.readers[t] == Out
  }

  predicate IsKernelStep(step: Step) {
    step.BeginUpdate? || step.WriteSec? || step.WriteNsec? || step.EndUpdate?
  }

  predicate Enabled(s: State, step: Step) {
    && !s.aborted
    && if IsKernelStep(step) then KernelEnabled(s.writer, step)
       else step.tid in s.readers && ReaderEnabled(s, s.readers[step.tid], step)
  }

  predicate KernelEnabled(writer: Writer, step: Step) {
    match step
    case BeginUpdate(_) => writer == Quiet
    case WriteSec => writer.Writing? && !writer.secWritten
    case WriteNsec => writer.Writing? && !writer.nsecWritten
    case EndUpdate => writer.Writing? && writer.secWritten && writer.nsecWritten
    case _ => false
  }

  predicate ReaderEnabled(s: State, r: Reader, step: Step) {
    match step
    case Lock(_, _) => r == Out && s.lock == None
    case OcallResult(_, _) => r == Locked(false)
    case OcallFailed(_) => r == Locked(false)
    case LoadSeq(_) => r == Locked(true)
    case LoadSec(_) => r.GotSeq?
    case LoadNsec(_) => r.GotSec?
    case Recheck(_) => r.GotNsec?
    case LoadLastSec(_) => r.Comparing?
    case LoadLastNsec(_) => r.Compared?
    case StoreLastSec(_) => r.StoringSec?
    case StoreLastNsec(_) => r.StoringNsec?
    case Unlock(_) => r.Releasing?
    case _ => false
  }

  function WithReader(s: State, tid: Tid, r: Reader): State {
    s.(readers := s.readers[tid := r])
  }

  /** _ensure_range; an accepted value goes to the clamp. */
  function Check(s: State, tid: Tid, a: Accepted): State {
    if InRange(a.raw) then WithReader(s, tid, Comparing(a)) else s.(aborted := true)
  }

  function Apply(s: State, step: Step): State
    requires Enabled(s, step)
  {
    match step
    case BeginUpdate(t) => s.(counter := s.counter + 1, writer := Writing(t, false, false))
    case WriteSec => s.(mem := s.mem.(sec := s.writer.t.sec), writer := s.writer.(secWritten := true))
    case WriteNsec => s.(mem := s.mem.(nsec := s.writer.t.nsec), writer := s.writer.(nsecWritten := true))
    case EndUpdate => s.(counter := s.counter + 1, writer := Quiet, published := s.published + [s.writer.t])
    case Lock(tid, vdso) => WithReader(s.(lock := Some(tid)), tid, Locked(vdso))
    case OcallResult(tid, raw) => Check(s, tid, Accepted(raw, false, false))
    case OcallFailed(tid) => WithReader(s.(lock := None), tid, Out)
    case LoadSeq(tid) =>
      var seen := s.counter % SEQ_RANGE;
      if seen % 2 == 1 then s else WithReader(s, tid, GotSeq(seen, s.counter))
    case LoadSec(tid) =>
      var r := s.readers[tid];
      WithReader(s, tid, GotSec(r.seen, r.start, s.mem.sec))
    case LoadNsec(tid) =>
      var r := s.readers[tid];
      WithReader(s, tid, GotNsec(r.seen, r.start, Timestamp(r.sec, s.mem.nsec)))
    case Recheck(tid) =>
      var r := s.readers[tid];
      if s.counter % SEQ_RANGE != r.seen then WithReader(s, tid, Locked(true))
      else Check(s, tid, Accepted(r.t, true, s.counter - r.start >= SEQ_RANGE))
    case LoadLastSec(tid) => WithReader(s, tid, Compared(s.readers[tid].a, s.last.sec))
    case LoadLastNsec(tid) =>
      var r := s.readers[tid];
      var prev := Timestamp(r.lastSec, s.last.nsec);
      WithReader(s, tid, if Before(r.a.raw, prev) then Releasing(r.a, prev, prev) else StoringSec(r.a, prev))
    case StoreLastSec(tid) =>
      var r := s.readers[tid];
      WithReader(s.(last := s.last.(sec := r.a.raw.sec)), tid, StoringNsec(r.a, r.prev))
    case StoreLastNsec(tid) =>
      var r := s.readers[tid];
      WithReader(s.(last := s.last.(nsec := r.a.raw.nsec)), tid, Releasing(r.a, r.prev, r.a.raw))
    case Unlock(tid) =>
      var r := s.readers[tid];
      WithReader(s.(lock := None, log := s.log + [Reading(r.a, r.result)]), tid, Out)
  }

  /** The state after the steps, or None if one of them is not enabled when it is taken. */
  function Exec(s: State, steps: seq<Step>): Option<State> {
    if steps == [] then Some(s) else
      match Exec(s, steps[..|steps| - 1])
      case None => None
      case Some(m) =>
        var step := steps[|steps| - 1];
        if Enabled(m, step) then Some(Apply(m, step)) else None
  }

  // ---------- invariants ----------

  function Raws(log: seq<Reading>): (r: seq<Timestamp>)
    ensures |r| == |log|
    ensures forall i: nat :: i < |log| ==> r[i] == log[i].a.raw
  {
    if log == [] then [] else Raws(log[..|log| - 1]) + [log[|log| - 1].a.raw]
  }

  predicate WriterInv(s: State) {
    && 0 < |s.published|
    && match s.writer
       case Quiet => s.counter == 2 * (|s.published| - 1) && s.mem == s.published[|s.published| - 1]
       case Writing(t, sec, nsec) =>
         && s.counter == 2 * |s.published| - 1
         && (sec ==> s.mem.sec == t.sec) && (nsec ==> s.mem.nsec == t.nsec)
  }

  /** An accepted value is in range, and comes from one kernel update if it was read from the vDSO without a wrap. */
  predicate AcceptedInv(s: State, a: Accepted) {
    InRange(a.raw) && (a.vdso && !a.wrapped ==> a.raw in s.published)
  }

  /** While the counter still equals the reader's first load, the values read are the current ones. */
  predicate ReaderInv(s: State, r: Reader) {
    match r
    case GotSeq(seen, start) => seen == start % SEQ_RANGE && start <= s.counter && start % 2 == 0
    case GotSec(seen, start, sec) =>
      && seen == start % SEQ_RANGE && start <= s.counter && start % 2 == 0
      && (start == s.counter ==> sec == s.mem.sec)
    case GotNsec(seen, start, t) =>
      && seen == start % SEQ_RANGE && start <= s.counter && start % 2 == 0
      && (start == s.counter ==> t == s.mem)
    case Out => true
    case Locked(_) => true
    case _ => AcceptedInv(s, r.a)
  }

  predicate IsMax(log: seq<Reading>, m: Timestamp) {
    IsRunningMax(Raws(log), |log|, m)
  }

  /** How far the lock holder is with the clamp; prev is the maximum of the log while last is being changed. */
  predicate ClampInv(s: State, r: Reader) {
    match r
    case StoringSec(a, prev) => IsMax(s.log, prev) && !Before(a.raw, prev) && s.last == prev
    case StoringNsec(a, prev) => IsMax(s.log, prev) && !Before(a.raw, prev) && s.last.sec == a.raw.sec
    case Releasing(a, prev, result) => IsMax(s.log, prev) && result == Clamp(prev, a.raw) && s.last == result
    case Compared(_, sec) => IsMax(s.log, s.last) && sec == s.last.sec
    case _ => IsMax(s.log, s.last)
  }

  predicate LogInv(s: State) {
    && (forall i: nat :: i < |s.log| ==> IsRunningMax(Raws(s.log), i + 1, s.log[i].result))
    && (forall i: nat :: i < |s.log| ==> AcceptedInv(s, s.log[i].a))
  }

  /** Only the holder of the lock is inside. */
  predicate LockInv(s: State) {
    forall t :: t in s.readers && s.readers[t] != Out ==> s.lock == Some(t)
  }

  predicate LastInv(s: State) {
    match s.lock
    case None => IsMax(s.log, s.last)
    case Some(t) => t in s.readers && s.readers[t] != Out && ClampInv(s, s.readers[t])
  }

  predicate Inv(s: State) {
    && WriterInv(s)
    && (forall t :: t in s.readers ==> ReaderInv(s, s.readers[t]))
    && LogInv(s) && LockInv(s) && LastInv(s)
  }

  lemma RunningMaxPrefix(a: seq<Timestamp>, b: seq<Timestamp>, n: nat, m: Timestamp)
    requires n <= |a| <= |b| && a == b[..|a|] && IsRunningMax(a, n, m)
    ensures IsRunningMax(b, n, m)
  {
    if m != ZERO {
      var i: nat :| i < n && a[i] == m;
      assert b[i] == m;
    }
  }

  /** A kernel step changes nothing that the clamp uses, and what was published stays published. */
  lemma KernelStepKeepsRest(s: State, step: Step)
    requires LogInv(s) && LockInv(s) && LastInv(s) && Enabled(s, step) && IsKernelStep(step)
    ensures var s' := Apply(s, step);
      && LogInv(s') && LockInv(s') && LastInv(s') && s'.readers == s.readers
      && forall x :: x in s.published ==> x in s'.published
  {
    var s' := Apply(s, step);
    assert forall x :: x in s.published ==> x in s'.published;
    assert s.lock.Some? ==> ClampInv(s', s'.readers[s.lock.value]);
  }

  lemma KernelStepKeepsReaderInv(s: State, step: Step, r: Reader)
    requires WriterInv(s) && Enabled(s, step) && IsKernelStep(step) && ReaderInv(s, r)
    ensures ReaderInv(Apply(s, step), r)
  {
    assert forall x :: x in s.published ==> x in Apply(s, step).published;
  }

  lemma ReaderStepKeepsReaderInv(s: State, step: Step)
    requires WriterInv(s) && Enabled(s, step) && !IsKernelStep(step) && ReaderInv(s, s.readers[step.tid])
    ensures var s' := Apply(s, step); s'.readers == s.readers[step.tid := s'.readers[step.tid]]
    ensures ReaderInv(Apply(s, step), Apply(s, step).readers[step.tid])
  {
    if step.Recheck? {
      var r := s.readers[step.tid];
      if s.counter % SEQ_RANGE == r.seen && s.counter - r.start < SEQ_RANGE {
        SameResidue(r.start, s.counter);
      }
    }
  }

  lemma ReaderStepKeepsLock(s: State, step: Step)
    requires LockInv(s) && LastInv(s) && Enabled(s, step) && !IsKernelStep(step)
    ensures LockInv(Apply(s, step))
    ensures step.Lock? || s.lock == Some(step.tid)
  {
  }

  /** The one reader inside is the one that steps, so nobody else depends on what it does to last. */
  lemma ReaderStepKeepsLast(s: State, step: Step)
    requires LockInv(s) && LastInv(s) && Enabled(s, step) && !IsKernelStep(step)
    ensures LastInv(Apply(s, step))
  {
    ReaderStepKeepsLock(s, step);
    if step.Unlock? {
      var r := s.readers[step.tid];
      LogExtended(s.log, r.a, r.prev, r.result);
    }
  }

  lemma LogExtended(log: seq<Reading>, a: Accepted, prev: Timestamp, result: Timestamp)
    requires IsMax(log, prev) && result == Clamp(prev, a.raw)
    ensures IsMax(log + [Reading(a, result)], result)
    ensures Raws(log + [Reading(a, result)]) == Raws(log) + [a.raw]
  {
    var log' := log + [Reading(a, result)];
    assert log'[..|log'| - 1] == log;
    RunningMaxPrefix(Raws(log), Raws(log'), |log|, prev);
    RunningMaxExtends(Raws(log'), |log|, prev);
  }

  lemma ReaderStepKeepsLog(s: State, step: Step)
    requires LogInv(s) && LockInv(s) && LastInv(s) && Enabled(s, step) && !IsKernelStep(step)
    requires ReaderInv(s, s.readers[step.tid])
    ensures LogInv(Apply(s, step))
  {
    if step.Unlock? {
      ReaderStepKeepsLock(s, step);
      UnlockKeepsLog(s, step.tid);
    }
  }

  lemma UnlockKeepsLog(s: State, tid: Tid)
    requires LogInv(s) && LastInv(s) && Enabled(s, Unlock(tid)) && s.lock == Some(tid)
    requires ReaderInv(s, s.readers[tid])
    ensures LogInv(Apply(s, Unlock(tid)))
  {
    var r := s.readers[tid];
    var log' := s.log + [Reading(r.a, r.result)];
    LogExtended(s.log, r.a, r.prev, r.result);
    forall i: nat | i < |log'| ensures IsRunningMax(Raws(log'), i + 1, log'[i].result) {
      if i < |s.log| {
        RunningMaxPrefix(Raws(s.log), Raws(log'), i + 1, s.log[i].result);
      }
    }
  }

  lemma StepKeepsWriterInv(s: State, step: Step)
    requires WriterInv(s) && Enabled(s, step)
    ensures WriterInv(Apply(s, step))
  {
  }

  lemma StepKeepsInv(s: State, step: Step)
    requires Inv(s) && Enabled(s, step)
    ensures Inv(Apply(s, step))
  {
    StepKeepsWriterInv(s, step);
    if IsKernelStep(step) {
      KernelStepKeepsRest(s, step);
      forall t | t in s.readers ensures ReaderInv(Apply(s, step), s.readers[t]) {
        KernelStepKeepsReaderInv(s, step, s.readers[t]);
      }
    } else {
      ReaderStepKeepsReaderInv(s, step);
      ReaderStepKeepsLock(s, step);
      ReaderStepKeepsLast(s, step);
      ReaderStepKeepsLog(s, step);
    }
  }

  /** Two counts less than 2^32 apart that agree modulo 2^32 are equal. */
  lemma SameResidue(a: nat, b: nat)
    requires a <= b < a + SEQ_RANGE && a % SEQ_RANGE == b % SEQ_RANGE
    ensures a == b
  {
  }

  lemma {:induction false} ReachableInv(s: State, steps: seq<Step>)
    requires Init(s) && Exec(s, steps).Some?
    ensures Inv(Exec(s, steps).value)
  {
    if steps != [] {
      ReachableInv(s, steps[..|steps| - 1]);
      StepKeepsInv(Exec(s, steps[..|steps| - 1]).value, steps[|steps| - 1]);
    }
  }

  // ---------- theorems over every run ----------

  /** Every result is the running lexicographic maximum of the raw values accepted so far, in lock order. */
  lemma ResultsAreRunningMax(s: State, steps: seq<Step>, s': State, i: nat)
    requires Init(s) && Exec(s, steps) == Some(s') && i < |s'.log|
    ensures IsRunningMax(Raws(s'.log), i + 1, s'.log[i].result)
  {
    ReachableInv(s, steps);
  }

  /** At most one call is inside, so the order of the readings is the order in which the lock was taken. */
  lemma OneInside(s: State, steps: seq<Step>, s': State, t: Tid, u: Tid)
    requires Init(s) && Exec(s, steps) == Some(s') && t in s'.readers && u in s'.readers
    requires s'.readers[t] != Out && s'.readers[u] != Out
    ensures t == u && s'.lock == Some(t)
  {
    ReachableInv(s, steps);
  }

  /** The monotonic clock never goes backwards, whatever the host supplies. */
  lemma ResultsNeverDecrease(s: State, steps: seq<Step>, s': State, i: nat, j: nat)
    requires Init(s) && Exec(s, steps) == Some(s') && i <= j < |s'.log|
    ensures !Before(s'.log[j].result, s'.log[i].result)
  {
    ReachableInv(s, steps);
    assert IsRunningMax(Raws(s'.log), i + 1, s'.log[i].result) && IsRunningMax(Raws(s'.log), j + 1, s'.log[j].result);
  }

  /** A vDSO read during which the counter does not wrap accepts only a pair that one update published. */
  lemma ReadsAreNotTorn(s: State, steps: seq<Step>, s': State, i: nat)
    requires Init(s) && Exec(s, steps) == Some(s') && i < |s'.log|
    requires s'.log[i].a.vdso && !s'.log[i].a.wrapped
    ensures exists k: nat :: k < |s'.published| && s'.published[k] == s'.log[i].a.raw
  {
    ReachableInv(s, steps);
  }

  // ---------- the range check ----------

  /** The nanoseconds are negative or make a second. */
  predicate BadTime(t: Timestamp) {
    t.nsec < 0 || 1_000_000_000 <= t.nsec
  }

  /**
   The program aborts exactly if the host supplies a bad time, or if a bad time is read from the vDSO while
   the counter seems unchanged.
   */
  lemma AbortsExactly(s: State, steps: seq<Step>, m: State, step: Step)
    requires Init(s) && Exec(s, steps) == Some(m) && Enabled(m, step)
    ensures Apply(m, step).aborted <==>
      || (step.OcallResult? && BadTime(step.raw))
      || (step.Recheck?
        && m.counter % SEQ_RANGE == m.readers[step.tid].seen && BadTime(m.readers[step.tid].t))
  {
  }

  /** Otherwise a value is accepted as it is, and a vDSO read is repeated exactly if the counter changed. */
  lemma AcceptedAsIs(s: State, steps: seq<Step>, m: State, step: Step)
    requires Init(s) && Exec(s, steps) == Some(m) && Enabled(m, step) && !Apply(m, step).aborted
    requires step.OcallResult? || step.Recheck?
    ensures var m', r := Apply(m, step), Apply(m, step).readers[step.tid];
      && (r == Locked(true) <==> step.Recheck? && m.counter % SEQ_RANGE != m.readers[step.tid].seen)
      && (r != Locked(true) ==>
        r.Comparing? && r.a.raw == if step.OcallResult? then step.raw else m.readers[step.tid].t)
      && m'.lock == m.lock && m'.last == m.last && m'.log == m.log
  {
  }

  /** A call whose ocall fails returns without a trace: the next call finds the lock free and the same maximum. */
  lemma FailedCallLeavesNoTrace(s: State, steps: seq<Step>, m: State, tid: Tid, next: Tid, vdso: bool)
    requires Init(s) && Exec(s, steps) == Some(m) && Enabled(m, OcallFailed(tid)) && next in m.readers
    ensures var m' := Apply(m, OcallFailed(tid));
      Enabled(m', Lock(next, vdso)) && m'.last == m.last && m'.log == m.log && IsMax(m'.log, m'.last)
  {
    ReachableInv(s, steps);
    StepKeepsInv(m, OcallFailed(tid));
  }

  /** Whatever the host supplies, the nanoseconds of every accepted value and of every result are in range. */
  lemma NanosecondsInRange(s: State, steps: seq<Step>, s': State, i: nat)
    requires Init(s) && Exec(s, steps) == Some(s') && i < |s'.log|
    ensures 0 <= s'.log[i].a.raw.nsec < 1_000_000_000
    ensures 0 <= s'.log[i].result.nsec < 1_000_000_000
  {
    ReachableInv(s, steps);
    var result := s'.log[i].result;
    assert IsRunningMax(Raws(s'.log), i + 1, result);
    if result != ZERO {
      var k: nat :| k < i + 1 && Raws(s'.log)[k] == result;
      assert AcceptedInv(s', s'.log[k].a);
    }
  }

  // ---------- a call returns ----------

  lemma {:induction false} ExecFrom(s: State, step: Step, rest: seq<Step>)
    requires Enabled(s, step) && Exec(Apply(s, step), rest).Some?
    ensures Exec(s, [step] + rest) == Exec(Apply(s, step), rest)
  {
    if rest == [] {
      assert [step] + rest == [step];
      assert [step][..0] == [];
    } else {
      ExecFrom(s, step, rest[..|rest| - 1]);
      assert ([step] + rest)[..|[step] + rest| - 1] == [step] + rest[..|rest| - 1];
    }
  }

  predicate OwnSteps(steps: seq<Step>, tid: Tid) {
    forall step :: step in steps ==> !IsKernelStep(step) && step.tid == tid
  }

  /** The reader's copy of the counter does not match the counter. */
  predicate Stale(m: State, r: Reader) {
    (r.GotSeq? || r.GotSec? || r.GotNsec?) && m.counter % SEQ_RANGE != r.seen
  }

  /** The steps to the end of the call while the kernel is quiet. */
  function StepsLeft(m: State, r: Reader): nat {
    var again := if Stale(m, r) then 4 else 0;
    match r
    case Out => 0
    case Locked(_) => 9
    case GotSeq(_, _) => 8 + again
    case GotSec(_, _, _) => 7 + again
    case GotNsec(_, _, _) => 6 + again
    case Comparing(_) => 5
    case Compared(_, _) => 4
    case StoringSec(_, _) => 3
    case StoringNsec(_, _) => 2
    case Releasing(_, _, _) => 1
  }

  /** raw is what the host returns if it is asked. */
  function OwnStep(r: Reader, tid: Tid, raw: Timestamp): Step
    requires r != Out
  {
    match r
    case Locked(vdso) => if vdso then LoadSeq(tid) else OcallResult(tid, raw)
    case GotSeq(_, _) => LoadSec(tid)
    case GotSec(_, _, _) => LoadNsec(tid)
    case GotNsec(_, _, _) => Recheck(tid)
    case Comparing(_) => LoadLastSec(tid)
    case Compared(_, _) => LoadLastNsec(tid)
    case StoringSec(_, _) => StoreLastSec(tid)
    case StoringNsec(_, _) => StoreLastNsec(tid)
    case Releasing(_, _, _) => Unlock(tid)
  }

  /** The value that the call goes on with if the kernel stays quiet. */
  function WillAccept(m: State, r: Reader, raw: Timestamp): Timestamp {
    if Stale(m, r) then m.mem else
    match r
    case Locked(vdso) => if vdso then m.mem else raw
    case GotSeq(_, _) => m.mem
    case GotSec(_, _, sec) => Timestamp(sec, m.mem.nsec)
    case GotNsec(_, _, t) => t
    case Comparing(a) => a.raw
    case Compared(a, _) => a.raw
    case StoringSec(a, _) => a.raw
    case StoringNsec(a, _) => a.raw
    case Releasing(a, _, _) => a.raw
    case Out => raw
  }

  lemma OwnStepAdvances(m: State, tid: Tid, raw: Timestamp)
    requires WriterInv(m) && !m.aborted && m.writer == Quiet && tid in m.readers && m.readers[tid] != Out
    requires LockInv(m)
    ensures var r, step := m.readers[tid], OwnStep(m.readers[tid], tid, raw);
      Enabled(m, step) &&
      var m' := Apply(m, step);
      && tid in m'.readers && m'.writer == Quiet && m'.counter == m.counter && m'.mem == m.mem
      && (m'.aborted ==> !(0 <= WillAccept(m, r, raw).nsec < 1_000_000_000))
      && (!m'.aborted && m'.readers[tid] != Out ==>
        && StepsLeft(m', m'.readers[tid]) < StepsLeft(m, r)
        && WillAccept(m', m'.readers[tid], raw) == WillAccept(m, r, raw) && m'.log == m.log)
      && (m'.readers[tid] == Out ==>
        && r.Releasing? && !m'.aborted && m'.lock == None && m'.log == m.log + [Reading(r.a, r.result)])
  {
  }

  /** While the kernel is quiet, a call that is inside returns by its own steps, or aborts if the value is no time. */
  lemma {:induction false} CallFinishes(m: State, tid: Tid, raw: Timestamp) returns (steps: seq<Step>)
    requires Inv(m) && !m.aborted && m.writer == Quiet && tid in m.readers && m.readers[tid] != Out
    ensures Exec(m, steps).Some? && OwnSteps(steps, tid) && |steps| <= StepsLeft(m, m.readers[tid])
    ensures var s', x := Exec(m, steps).value, WillAccept(m, m.readers[tid], raw);
      && Inv(s')
      && (s'.aborted <==> !(0 <= x.nsec < 1_000_000_000))
      && (!s'.aborted ==>
        && s'.lock == None && |s'.log| == |m.log| + 1 && s'.log[..|m.log|] == m.log && s'.log[|m.log|].a.raw == x)
    decreases StepsLeft(m, m.readers[tid])
  {
    var r := m.readers[tid];
    var step := OwnStep(r, tid, raw);
    OwnStepAdvances(m, tid, raw);
    StepKeepsInv(m, step);
    var m' := Apply(m, step);
    var rest := [];
    if !m'.aborted && m'.readers[tid] != Out {
      rest := CallFinishes(m', tid, raw);
    }
    ExecFrom(m, step, rest);
    steps := [step] + rest;
  }

  lemma RunningMaxUnique(raws: seq<Timestamp>, n: nat, a: Timestamp, b: Timestamp)
    requires n <= |raws| && IsRunningMax(raws, n, a) && IsRunningMax(raws, n, b)
    ensures a == b
  {
    assert !Before(a, b) && !Before(b, a);
  }

  /** The result of the last reading is the later one of the maximum before it and its own value. */
  lemma LastResult(s: State, log: seq<Reading>, last: Timestamp)
    requires LogInv(s) && |s.log| == |log| + 1 && s.log[..|log|] == log && IsMax(log, last)
    ensures s.log[|log|].result == Clamp(last, s.log[|log|].a.raw)
  {
    var a, result := s.log[|log|].a, Clamp(last, s.log[|log|].a.raw);
    var log' := log + [Reading(a, result)];
    LogExtended(log, a, last, result);
    assert Raws(s.log) == Raws(log') by {
      assert s.log[..|s.log| - 1] == log;
    }
    RunningMaxUnique(Raws(s.log), |s.log|, result, s.log[|log|].result);
  }

  /**
   A call that finds the lock free and the kernel quiet returns the later one of the last result and
   the time that the kernel published last, or that the host supplied; it aborts exactly if that is
   no time.
   */
  lemma CallReturns(s: State, run: seq<Step>, m: State, tid: Tid, vdso: bool, raw: Timestamp) returns (steps: seq<Step>)
    requires Init(s) && Exec(s, run) == Some(m) && Enabled(m, Lock(tid, vdso)) && m.writer == Quiet
    ensures Exec(m, steps).Some? && OwnSteps(steps, tid) && 0 < |m.published|
    ensures var s', x := Exec(m, steps).value, if vdso then m.published[|m.published| - 1] else raw;
      && (s'.aborted <==> !(0 <= x.nsec < 1_000_000_000))
      && (!s'.aborted ==>
        && s'.lock == None && |s'.log| == |m.log| + 1 && s'.log[..|m.log|] == m.log
        && s'.log[|m.log|].result == s'.last == if Before(x, m.last) then m.last else x)
  {
    ReachableInv(s, run);
    var m' := Apply(m, Lock(tid, vdso));
    StepKeepsInv(m, Lock(tid, vdso));
    var rest := CallFinishes(m', tid, raw);
    ExecFrom(m, Lock(tid, vdso), rest);
    steps := [Lock(tid, vdso)] + rest;
    var s' := Exec(m, steps).value;
    if !s'.aborted {
      LastResult(s', m.log, m.last);
      RunningMaxUnique(Raws(s'.log), |s'.log|, s'.log[|m.log|].result, s'.last);
    }
  }
}
