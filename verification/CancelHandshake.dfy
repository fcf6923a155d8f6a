/**
 Canceling the host threads of an enclave: set_cancelable and cancel_all_threads of
 src/ert/host/enclave_thread_manager.cpp, and the ocall path that calls set_cancelable.

 Each atomic update of cancel_state, each check of the finished flag and each call into the host's
 pthread library is one step.  There are no nested ecalls, and no thread is created while all are
 being canceled, which the manager's mutex ensures for its list.
 */
module CancelHandshake {
  import opened Common

  const CANCELABLE: bv32 := 1
  const CANCELING: bv32 := 2

  /** The meaning of a cancel_state. */
  datatype Flags = Flags(cancelable: bool, canceling: bool)

  function FlagsOf(bits: bv32): Flags {
    Flags(bits & CANCELABLE != 0, bits & CANCELING != 0)
  }

  /** Each of the three atomic updates changes one flag and leaves the other alone. */
  lemma UpdatesOneFlag(bits: bv32)
    ensures (bits | CANCELABLE) & CANCELABLE != 0 && (bits | CANCELABLE) & CANCELING == bits & CANCELING
    ensures (bits & !CANCELABLE) & CANCELABLE == 0 && (bits & !CANCELABLE) & CANCELING == bits & CANCELING
    ensures (bits | CANCELING) & CANCELING != 0 && (bits | CANCELING) & CANCELABLE == bits & CANCELABLE
  {
  }

  /** The atomic update of set_cancelable. */
  function AfterSet(bits: bv32, cancelable: bool): bv32 {
    if cancelable then bits | CANCELABLE else bits & !CANCELABLE
  }

  /** The atomic update of cancel_all_threads. */
  function AfterMark(bits: bv32): bv32 {
    bits | CANCELING
  }

  /** The record of one thread, as both sides update it. */
  class Record {
    var cancelState: bv32

    constructor ()
      ensures FlagsOf(cancelState) == Flags(false, false)
    {
      cancelState := 0;
    }

    /** exits tells that the calling thread calls pthread_exit instead of returning. */
    method SetCancelable(cancelable: bool) returns (exits: bool)
      modifies this
      ensures cancelState == AfterSet(old(cancelState), cancelable)
      ensures FlagsOf(cancelState) == FlagsOf(old(cancelState)).(cancelable := cancelable)
      ensures exits <==> FlagsOf(old(cancelState)).canceling
    {
      UpdatesOneFlag(cancelState);
      if cancelable {
        cancelState := cancelState | CANCELABLE;
      } else {
        cancelState := cancelState & !CANCELABLE;
      }
      exits := FlagsOf(cancelState).canceling;
    }

    /** cancelable tells whether pthread_cancel may be called on the thread. */
    method MarkCanceling() returns (cancelable: bool)
      modifies this
      ensures cancelState == AfterMark(old(cancelState))
      ensures FlagsOf(cancelState) == FlagsOf(old(cancelState)).(canceling := true)
      ensures cancelable <==> FlagsOf(old(cancelState)).cancelable
    {
      UpdatesOneFlag(cancelState);
      cancelState := cancelState | CANCELING;
      cancelable := FlagsOf(cancelState).cancelable;
    }
  }

  // ---------- the protocol ----------

  datatype Pc =
    | Outside                      // started, has not entered the enclave yet
    | Inside                       // in enclave code
    | PlainOcall                   // in one of the ocalls that hold locks and are never canceled
    | OcallEntry                   // about to call set_cancelable(true)
    | OcallRunning(waited: bool)   // in host code that may be canceled
    | Blocked                      // asleep in the host's thread wait, which is no cancellation point
    | Resuming                     // set_cancelable(false) returned
    | Finishing                    // the thread function returned
    | Exiting                      // terminating
    | Terminated

  /** completed counts the set_cancelable calls that returned; token is a wake that came before the wait. */
  datatype Thread = Thread(
    pc: Pc, flags: Flags, finished: bool, requested: bool, token: bool, completed: nat)

  /** Where cancel_all_threads is, and at which thread. */
  datatype Canceller =
    | Idle
    | Checking(i: nat)
    | Marking(i: nat)
    | Requesting(i: nat)   // about to call pthread_cancel
    | Waking(i: nat)
    | Joining(i: nat)
    | Returned

  datatype State = State(threads: seq<Thread>, canceller: Canceller)

  datatype Step =
    | EnterEnclave(t: nat)
    | LeaveEnclave(t: nat)
    | BeginPlainOcall(t: nat)
    | EndPlainOcall(t: nat)
    | BeginOcall(t: nat)
    | SetCancelable(t: nat, cancelable: bool)
    | Wait(t: nat)
    | WakeUp(t: nat)
    | ActOnCancel(t: nat)
    | Resume(t: nat)
    | SetFinished(t: nat)
    | Terminate(t: nat)
    | CancelAll
    | CheckFinished
    | Mark
    | PthreadCancel
    | WakeThread
    | Join

  predicate Init(s: State) {
    && s.canceller == Idle
    && forall t: nat :: t < |s.threads| ==> s.threads[t] == Thread(Outside, Flags(false, false), false, false, false, 0)
  }

  predicate IsCancellerStep(step: Step) {
    step.CancelAll? || step.CheckFinished? || step.Mark? || step.PthreadCancel? || step.WakeThread? || step.Join?
  }

  predicate Enabled(s: State, step: Step) {
    if IsCancellerStep(step) then CancellerEnabled(s, step)
    else step.t < |s.threads| && ThreadEnabled(s.threads[step.t], step)
  }

  predicate ThreadEnabled(th: Thread, step: Step) {
    match step
    case EnterEnclave(_) => th.pc == Outside
    case LeaveEnclave(_) => th.pc == Inside
    case BeginPlainOcall(_) => th.pc == Inside
    case EndPlainOcall(_) => th.pc == PlainOcall
    case BeginOcall(_) => th.pc == Inside
    case SetCancelable(_, cancelable) => if cancelable then th.pc == OcallEntry else th.pc.OcallRunning?
    case Wait(_) => th.pc == OcallRunning(false)
    case WakeUp(_) => th.pc == Blocked
    case ActOnCancel(_) => th.requested && OnHost(th.pc)
    case Resume(_) => th.pc == Resuming
    case SetFinished(_) => th.pc == Finishing
    case Terminate(_) => th.pc == Exiting
    case _ => false
  }

  /** In host code that may contain cancellation points. */
  predicate OnHost(pc: Pc) {
    pc == Outside || pc == PlainOcall || pc == OcallEntry || pc.OcallRunning? || pc == Resuming || pc == Finishing
  }

  predicate CancellerEnabled(s: State, step: Step) {
    match step
    case CancelAll => s.canceller == Idle
    case CheckFinished => s.canceller.Checking? && s.canceller.i < |s.threads|
    case Mark => s.canceller.Marking? && s.canceller.i < |s.threads|
    case PthreadCancel => s.canceller.Requesting? && s.canceller.i < |s.threads|
    case WakeThread => s.canceller.Waking? && s.canceller.i < |s.threads|
    case Join => s.canceller.Joining? && s.canceller.i < |s.threads| && s.threads[s.canceller.i].pc == Terminated
    case _ => false
  }

  function ApplyThread(th: Thread, step: Step): Thread {
    match step
    case EnterEnclave(_) => th.(pc := Inside)
    case LeaveEnclave(_) => th.(pc := Finishing)
    case BeginPlainOcall(_) => th.(pc := PlainOcall)
    case EndPlainOcall(_) => th.(pc := Inside)
    case BeginOcall(_) => th.(pc := OcallEntry)
    case SetCancelable(_, cancelable) =>
      var flags := th.flags.(cancelable := cancelable);
      // this function is always a cancelation point
      if flags.canceling then th.(flags := flags, pc := Exiting)
      else
        var pc := if cancelable then OcallRunning(false) else Resuming;
        th.(flags := flags, completed := th.completed + 1, pc := pc)
    case Wait(_) => if th.token then th.(token := false, pc := OcallRunning(true)) else th.(pc := Blocked)
    case WakeUp(_) => th.(pc := OcallRunning(true))
    case ActOnCancel(_) => th.(pc := Exiting)
    case Resume(_) => th.(pc := Inside)
    case SetFinished(_) => th.(finished := true, pc := Exiting)
    case Terminate(_) => th.(pc := Terminated)
    case _ => th
  }

  function Next(s: State, i: nat): Canceller {
    if i < |s.threads| then Checking(i) else Returned
  }

  function Apply(s: State, step: Step): State
    requires Enabled(s, step)
  {
    match step
    case CancelAll => s.(canceller := Next(s, 0))
    case CheckFinished =>
      var i := s.canceller.i;
      s.(canceller := if s.threads[i].finished then Joining(i) else Marking(i))
    case Mark =>
      var i := s.canceller.i;
      var flags := s.threads[i].flags.(canceling := true);
      State(s.threads[i := s.threads[i].(flags := flags)], if flags.cancelable then Requesting(i) else Joining(i))
    case PthreadCancel =>
      var i := s.canceller.i;
      State(s.threads[i := s.threads[i].(requested := true)], Waking(i))
    case WakeThread =>
      var i := s.canceller.i;
      var th := s.threads[i];
      State(s.threads[i := if th.pc == Blocked then th.(pc := OcallRunning(true)) else th.(token := true)], Joining(i))
    case Join => s.(canceller := Next(s, s.canceller.i + 1))
    case _ => s.(threads := s.threads[step.t := ApplyThread(s.threads[step.t], step)])
  }

  /** The state after the steps, or None if one of them is not enabled when it is taken. */
  function Exec(s: State, steps: seq<Step>): Option<State> {
    if steps == [] then Some(s) else
      match Exec(s, steps[..|steps| - 1])
      case None => None
      case Some(m) =>
        var step := steps[|steps| - 1];
        if Enabled(m, step) then Some(Apply(m, step)) else None
  }

  // ---------- the invariant ----------

  predicate Ending(pc: Pc) {
    pc == Exiting || pc == Terminated
  }

  /** Between the two set_cancelable calls of an ocall, or past the point of no return. */
  predicate Window(pc: Pc) {
    pc.OcallRunning? || pc == Blocked || pc == Exiting || pc == Terminated
  }

  /** Where cancel_all_threads stands with respect to thread t. */
  datatype Stage = NotYet | AboutToMark | AboutToRequest | AboutToWake | WaitsForEnd | Joined

  function StageOf(c: Canceller, t: nat): Stage {
    match c
    case Idle => NotYet
    case Returned => Joined
    case _ =>
      if t < c.i then Joined
      else if c.i < t then NotYet
      else match c
        case Checking(_) => NotYet
        case Marking(_) => AboutToMark
        case Requesting(_) => AboutToRequest
        case Waking(_) => AboutToWake
        case _ => WaitsForEnd
  }

  predicate ThreadInv(th: Thread, stage: Stage) {
    && (th.flags.cancelable ==> Window(th.pc))
    && (th.pc.OcallRunning? || th.pc == Blocked ==> th.flags.cancelable)
    && (th.finished ==> th.pc == Exiting || th.pc == Terminated)
    && (th.requested ==> th.flags.canceling && Window(th.pc))
    && (Ending(th.pc) ==> th.finished || th.flags.canceling)
    && match stage
       case NotYet => !th.flags.canceling && !th.requested
       case AboutToMark => !th.flags.canceling && !th.requested
       case AboutToRequest => th.flags.canceling && Window(th.pc) && !th.requested
       case AboutToWake => th.requested
       case WaitsForEnd =>
         && (th.finished || th.flags.canceling)
         && th.pc != Blocked && (th.pc == OcallRunning(false) ==> th.token)
         && (th.pc.OcallRunning? ==> th.requested)
       case Joined => th.pc == Terminated
  }

  predicate Inv(s: State) {
    && (!s.canceller.Idle? && !s.canceller.Returned? ==> s.canceller.i < |s.threads|)
    && forall t: nat :: t < |s.threads| ==> ThreadInv(s.threads[t], StageOf(s.canceller, t))
  }

  lemma ThreadStepKeepsInv(th: Thread, step: Step, stage: Stage)
    requires ThreadInv(th, stage) && ThreadEnabled(th, step)
    ensures ThreadInv(ApplyThread(th, step), stage)
  {
  }

  lemma StepKeepsInv(s: State, step: Step)
    requires Inv(s) && Enabled(s, step)
    ensures Inv(Apply(s, step))
  {
    if IsCancellerStep(step) {
      CancellerKeepsInv(s, step);
    } else {
      ThreadStepKeepsInv(s.threads[step.t], step, StageOf(s.canceller, step.t));
    }
  }

  /** What the steps of cancel_all_threads do to the thread they are at. */
  lemma CancellerKeepsThreadInv(th: Thread)
    ensures ThreadInv(th, NotYet) ==> ThreadInv(th, if th.finished then WaitsForEnd else AboutToMark)
    ensures ThreadInv(th, AboutToMark) ==>
      ThreadInv(th.(flags := th.flags.(canceling := true)), if th.flags.cancelable then AboutToRequest else WaitsForEnd)
    ensures ThreadInv(th, AboutToRequest) ==> ThreadInv(th.(requested := true), AboutToWake)
    ensures ThreadInv(th, AboutToWake) ==>
      ThreadInv(if th.pc == Blocked then th.(pc := OcallRunning(true)) else th.(token := true), WaitsForEnd)
    ensures ThreadInv(th, WaitsForEnd) && th.pc == Terminated ==> ThreadInv(th, Joined)
  {
  }

  lemma CancellerKeepsInv(s: State, step: Step)
    requires Inv(s) && Enabled(s, step) && IsCancellerStep(step)
    ensures Inv(Apply(s, step))
  {
    var s' := Apply(s, step);
    forall t: nat | t < |s'.threads| ensures ThreadInv(s'.threads[t], StageOf(s'.canceller, t)) {
      assert ThreadInv(s.threads[t], StageOf(s.canceller, t));
      if !step.CancelAll? && t == s.canceller.i {
        CancellerAt(s, step);
      } else {
        CancellerElsewhere(s, step, t);
      }
    }
  }

  lemma CancellerAt(s: State, step: Step)
    requires CancellerEnabled(s, step) && IsCancellerStep(step) && !step.CancelAll?
    requires ThreadInv(s.threads[s.canceller.i], StageOf(s.canceller, s.canceller.i))
    ensures var i, s' := s.canceller.i, Apply(s, step); ThreadInv(s'.threads[i], StageOf(s'.canceller, i))
  {
    CancellerKeepsThreadInv(s.threads[s.canceller.i]);
  }

  lemma CancellerElsewhere(s: State, step: Step, t: nat)
    requires CancellerEnabled(s, step) && IsCancellerStep(step) && t < |s.threads|
    requires step.CancelAll? || t != s.canceller.i
    ensures Apply(s, step).threads[t] == s.threads[t]
    ensures StageOf(Apply(s, step).canceller, t) == StageOf(s.canceller, t)
  {
  }

  lemma {:induction false} ReachableInv(s: State, steps: seq<Step>)
    requires Init(s) && Exec(s, steps).Some?
    ensures Inv(Exec(s, steps).value)
  {
    if steps != [] {
      ReachableInv(s, steps[..|steps| - 1]);
      StepKeepsInv(Exec(s, steps[..|steps| - 1]).value, steps[|steps| - 1]);
    }
  }

  // ---------- theorems over every run ----------

  /** pthread_cancel is never called on a thread that went back to enclave code. */
  lemma CancelHitsHostCode(s: State, steps: seq<Step>, s': State)
    requires Init(s) && Exec(s, steps) == Some(s') && Enabled(s', PthreadCancel)
    ensures Window(s'.threads[s'.canceller.i].pc)
  {
    ReachableInv(s, steps);
  }

  /** A thread on which pthread_cancel was called never executes enclave code again. */
  lemma RequestedStaysOutside(s: State, steps: seq<Step>, s': State, t: nat)
    requires Init(s) && Exec(s, steps) == Some(s') && t < |s'.threads| && s'.threads[t].requested
    ensures Window(s'.threads[t].pc)
  {
    ReachableInv(s, steps);
  }

  predicate Canceling(s: State, t: nat) {
    t < |s.threads| && s.threads[t].flags.canceling
  }

  /** The steps on the flags are the updates of the record's bits: set_cancelable exits exactly if Canceling is set. */
  lemma StepsAgreeWithRecord(th: Thread, bits: bv32, t: nat, cancelable: bool)
    requires FlagsOf(bits) == th.flags && ThreadEnabled(th, SetCancelable(t, cancelable))
    ensures var th' := ApplyThread(th, SetCancelable(t, cancelable));
      && FlagsOf(AfterSet(bits, cancelable)) == th'.flags
      && (th'.pc == Exiting <==> FlagsOf(bits).canceling)
    ensures FlagsOf(AfterMark(bits)) == th.flags.(canceling := true)
  {
    UpdatesOneFlag(bits);
  }

  /** A set_cancelable call returns, and changes the flag, exactly if the thread is not marked; else the thread ends. */
  lemma ReturnsUnlessMarked(s: State, steps: seq<Step>, m: State, t: nat, cancelable: bool)
    requires Init(s) && Exec(s, steps) == Some(m) && Enabled(m, SetCancelable(t, cancelable))
    ensures var th, th' := m.threads[t], Apply(m, SetCancelable(t, cancelable)).threads[t];
      && (Ending(th'.pc) <==> Canceling(m, t))
      && (th'.completed == th.completed + 1 <==> !Canceling(m, t))
      && (!Canceling(m, t) ==> th'.pc == if cancelable then OcallRunning(false) else Resuming)
      && th'.flags.cancelable == cancelable
  {
  }

  /** A thread ends only after its function returned or after it was marked. */
  lemma OnlyMarkedOrFinishedEnd(s: State, steps: seq<Step>, s': State, t: nat)
    requires Init(s) && Exec(s, steps) == Some(s') && t < |s'.threads| && Ending(s'.threads[t].pc)
    ensures s'.threads[t].finished || Canceling(s', t)
  {
    ReachableInv(s, steps);
    assert ThreadInv(s'.threads[t], StageOf(s'.canceller, t));
  }

  lemma TwoSteps(m: State, first: Step, second: Step)
    requires Enabled(m, first) && Enabled(Apply(m, first), second)
    ensures Exec(m, [first, second]) == Some(Apply(Apply(m, first), second))
  {
    assert [first, second][..1] == [first] && [first][..0] == [];
    assert Exec(m, [first]) == Some(Apply(m, first));
  }

  /** An ocall of a thread that nobody cancels goes through and comes back to the enclave. */
  lemma OcallComesBack(m: State, t: nat)
    requires t < |m.threads| && m.threads[t].pc == Inside && !Canceling(m, t)
    ensures var end := Exec(m, [BeginOcall(t), SetCancelable(t, true)] + [SetCancelable(t, false), Resume(t)]);
      && end.Some? && |end.value.threads| == |m.threads|
      && end.value.threads[t].pc == Inside && end.value.threads[t].completed == m.threads[t].completed + 2
  {
    TwoSteps(m, BeginOcall(t), SetCancelable(t, true));
    var on := Apply(Apply(m, BeginOcall(t)), SetCancelable(t, true));
    TwoSteps(on, SetCancelable(t, false), Resume(t));
    ExecAppend(m, [BeginOcall(t), SetCancelable(t, true)], [SetCancelable(t, false), Resume(t)]);
  }

  /** A plain ocall comes back to the enclave as if nothing had happened, whether the thread is marked or not. */
  lemma PlainOcallComesBack(m: State, t: nat)
    requires t < |m.threads| && m.threads[t].pc == Inside
    ensures Exec(m, [BeginPlainOcall(t), EndPlainOcall(t)]) == Some(m)
  {
    TwoSteps(m, BeginPlainOcall(t), EndPlainOcall(t));
    assert Apply(Apply(m, BeginPlainOcall(t)), EndPlainOcall(t)).threads == m.threads;
  }

  /** A thread whose function returns finishes and ends, whether it is marked or not. */
  lemma ReturningThreadEnds(m: State, t: nat)
    requires t < |m.threads| && m.threads[t].pc == Inside
    ensures var end := Exec(m, [LeaveEnclave(t), SetFinished(t)] + [Terminate(t)]);
      end == Some(m.(threads := m.threads[t := m.threads[t].(pc := Terminated, finished := true)]))
  {
    TwoSteps(m, LeaveEnclave(t), SetFinished(t));
    var m' := Apply(Apply(m, LeaveEnclave(t)), SetFinished(t));
    assert [Terminate(t)][..0] == [];
    assert Exec(m', [Terminate(t)]) == Some(Apply(m', Terminate(t)));
    ExecAppend(m, [LeaveEnclave(t), SetFinished(t)], [Terminate(t)]);
    var threads := m.threads[t := m.threads[t].(pc := Terminated, finished := true)];
    assert Apply(m', Terminate(t)).threads == threads;
  }

  /** cancel_all_threads has not looked at the thread yet, or has found it finished. */
  predicate Spared(s: State, t: nat) {
    && t < |s.threads| && s.threads[t].finished && !s.threads[t].flags.canceling && !s.threads[t].requested
    && (match StageOf(s.canceller, t)
        case NotYet => true
        case WaitsForEnd => true
        case Joined => true
        case _ => false)
  }

  lemma SparedStep(s: State, step: Step, t: nat)
    requires Inv(s) && Enabled(s, step) && Spared(s, t)
    ensures Spared(Apply(s, step), t)
  {
    assert ThreadInv(s.threads[t], StageOf(s.canceller, t));
  }

  /** A thread that finished before cancel_all_threads came to it is never marked or canceled. */
  lemma {:induction false} FinishedThreadIsSpared(m: State, later: seq<Step>, t: nat)
    requires Inv(m) && Spared(m, t) && Exec(m, later).Some?
    ensures Inv(Exec(m, later).value) && Spared(Exec(m, later).value, t)
  {
    if later != [] {
      var before, step := later[..|later| - 1], later[|later| - 1];
      FinishedThreadIsSpared(m, before, t);
      SparedStep(Exec(m, before).value, step, t);
      StepKeepsInv(Exec(m, before).value, step);
    }
  }

  /** Once a thread is marked, none of its set_cancelable calls returns any more. */
  lemma {:induction false} NoReturnOnceCanceling(m: State, later: seq<Step>, t: nat)
    requires Canceling(m, t) && Exec(m, later).Some?
    ensures var s' := Exec(m, later).value;
      Canceling(s', t) && s'.threads[t].completed == m.threads[t].completed
  {
    if later != [] {
      NoReturnOnceCanceling(m, later[..|later| - 1], t);
    }
  }

  lemma CancelingStep(s: State, step: Step, t: nat)
    requires Canceling(s, t) && Enabled(s, step)
    ensures Canceling(Apply(s, step), t)
    ensures Ending(s.threads[t].pc) || (step.SetCancelable? && step.t == t) ==> Ending(Apply(s, step).threads[t].pc)
  {
  }

  /** Once a thread is marked, its next set_cancelable call is its end: it executes no code but its own exit. */
  lemma {:induction false} MarkedThreadStaysOut(m: State, later: seq<Step>, t: nat, i: nat)
    requires Canceling(m, t) && Exec(m, later).Some?
    requires i < |later| && later[i].SetCancelable? && later[i].t == t
    ensures var s' := Exec(m, later).value; Canceling(s', t) && Ending(s'.threads[t].pc)
  {
    var before, step := later[..|later| - 1], later[|later| - 1];
    NoReturnOnceCanceling(m, before, t);
    if i < |before| {
      assert before[i] == later[i];
      MarkedThreadStaysOut(m, before, t, i);
    }
    CancelingStep(Exec(m, before).value, step, t);
  }

  /** When cancel_all_threads returns, every thread has ended. */
  lemma AllEndedOnReturn(s: State, steps: seq<Step>, s': State, t: nat)
    requires Init(s) && Exec(s, steps) == Some(s') && s'.canceller == Returned && t < |s'.threads|
    ensures s'.threads[t].pc == Terminated
  {
    ReachableInv(s, steps);
    assert ThreadInv(s'.threads[t], StageOf(s'.canceller, t));
  }

  // ---------- the join does not hang on a blocked thread ----------

  lemma {:induction false} ExecFrom(s: State, step: Step, rest: seq<Step>)
    requires Enabled(s, step) && Exec(Apply(s, step), rest).Some?
    ensures Exec(s, [step] + rest) == Exec(Apply(s, step), rest)
  {
    if rest == [] {
      assert [step] + rest == [step];
      assert [step][..0] == [];
    } else {
      ExecFrom(s, step, rest[..|rest| - 1]);
      assert ([step] + rest)[..|[step] + rest| - 1] == [step] + rest[..|rest| - 1];
    }
  }

  /** The steps belong to the thread itself and leave no ocall through the enclave. */
  predicate OwnHostSteps(steps: seq<Step>, t: nat) {
    var own := [Wait(t), SetCancelable(t, true), SetCancelable(t, false), Terminate(t)];
    forall i: nat :: i < |steps| ==> steps[i] in own
  }

  function StepsLeft(pc: Pc): nat {
    match pc
    case Terminated => 0
    case Exiting => 1
    case OcallRunning(waited) => if waited then 2 else 3
    case _ => 4
  }

  predicate InOcall(pc: Pc) {
    pc == OcallEntry || Window(pc)
  }

  lemma HostStepsEnd(m: State, t: nat) returns (steps: seq<Step>)
    requires t < |m.threads| && InOcall(m.threads[t].pc) && ThreadInv(m.threads[t], WaitsForEnd)
    requires m.threads[t].finished ==> m.threads[t].pc == Exiting || m.threads[t].pc == Terminated
    ensures Exec(m, steps).Some? && OwnHostSteps(steps, t)
    ensures t < |Exec(m, steps).value.threads| && Exec(m, steps).value.threads[t].pc == Terminated
    decreases StepsLeft(m.threads[t].pc)
  {
    var pc := m.threads[t].pc;
    if pc == Terminated {
      steps := [];
    } else {
      var step := match pc
        case Exiting => Terminate(t)
        case OcallRunning(waited) => if waited then SetCancelable(t, false) else Wait(t)
        case _ => SetCancelable(t, true);
      ThreadStepKeepsInv(m.threads[t], step, WaitsForEnd);
      var rest := HostStepsEnd(Apply(m, step), t);
      ExecFrom(m, step, rest);
      steps := [step] + rest;
    }
  }

  /**
   While the manager joins a thread that is in an ocall, that thread reaches its end by its own host
   steps, without anybody waking it.
   */
  lemma JoinedOcallEnds(s: State, run: seq<Step>, m: State, t: nat) returns (steps: seq<Step>)
    requires Init(s) && Exec(s, run) == Some(m) && m.canceller == Joining(t) && t < |m.threads|
    requires InOcall(m.threads[t].pc)
    ensures Exec(m, steps).Some? && OwnHostSteps(steps, t)
    ensures t < |Exec(m, steps).value.threads| && Exec(m, steps).value.threads[t].pc == Terminated
  {
    ReachableInv(s, run);
    assert ThreadInv(m.threads[t], StageOf(m.canceller, t));
    steps := HostStepsEnd(m, t);
  }

  // ---------- cancel_all_threads can always return ----------

  lemma {:induction false} ExecAppend(s: State, a: seq<Step>, b: seq<Step>)
    requires Exec(s, a).Some? && Exec(Exec(s, a).value, b).Some?
    ensures Exec(s, a + b) == Exec(Exec(s, a).value, b)
  {
    if b == [] {
      assert a + b == a;
    } else {
      ExecAppend(s, a, b[..|b| - 1]);
      assert (a + b)[..|a + b| - 1] == a + b[..|b| - 1];
    }
  }

  /** The steps that a thread has left to its end while the manager waits for it. */
  function StepsToEnd(pc: Pc): nat {
    match pc
    case Terminated => 0
    case Exiting => 1
    case OcallRunning(waited) => if waited then 2 else 3
    case OcallEntry => 2
    case Finishing => 2
    case Inside => 3
    case _ => 4
  }

  /** A step that brings a marked thread closer to its end; from the enclave, that is an ocall. */
  function StepToEnd(pc: Pc, t: nat): Step {
    match pc
    case Outside => EnterEnclave(t)
    case Inside => BeginOcall(t)
    case PlainOcall => EndPlainOcall(t)
    case OcallEntry => SetCancelable(t, true)
    case OcallRunning(waited) => if waited then SetCancelable(t, false) else Wait(t)
    case Resuming => Resume(t)
    case Finishing => SetFinished(t)
    case _ => Terminate(t)
  }

  lemma StepBringsCloser(th: Thread, t: nat)
    requires ThreadInv(th, WaitsForEnd) && th.pc != Terminated
    ensures var step := StepToEnd(th.pc, t);
      && !IsCancellerStep(step) && step.t == t && ThreadEnabled(th, step)
      && StepsToEnd(ApplyThread(th, step).pc) < StepsToEnd(th.pc)
  {
  }

  lemma {:induction false} ThreadCanEnd(m: State, t: nat) returns (steps: seq<Step>)
    requires Inv(m) && m.canceller == Joining(t) && t < |m.threads|
    ensures Exec(m, steps).Some?
    ensures var s' := Exec(m, steps).value;
      Inv(s') && s'.canceller == Joining(t) && |s'.threads| == |m.threads| && s'.threads[t].pc == Terminated
    decreases StepsToEnd(m.threads[t].pc)
  {
    assert ThreadInv(m.threads[t], StageOf(m.canceller, t));
    if m.threads[t].pc == Terminated {
      steps := [];
    } else {
      var step := StepToEnd(m.threads[t].pc, t);
      StepBringsCloser(m.threads[t], t);
      StepKeepsInv(m, step);
      var rest := ThreadCanEnd(Apply(m, step), t);
      ExecFrom(m, step, rest);
      steps := [step] + rest;
    }
  }

  predicate AtThread(c: Canceller) {
    !c.Idle? && !c.Returned?
  }

  function StepsToJoin(c: Canceller): nat {
    match c
    case Checking(_) => 4
    case Marking(_) => 3
    case Requesting(_) => 2
    case Waking(_) => 1
    case _ => 0
  }

  function CancellerStep(c: Canceller): Step {
    match c
    case Checking(_) => CheckFinished
    case Marking(_) => Mark
    case Requesting(_) => PthreadCancel
    case _ => WakeThread
  }

  lemma {:induction false} CancellerCanJoin(m: State) returns (steps: seq<Step>)
    requires Inv(m) && AtThread(m.canceller)
    ensures Exec(m, steps).Some?
    ensures var s' := Exec(m, steps).value;
      Inv(s') && s'.canceller == Joining(m.canceller.i) && |s'.threads| == |m.threads|
    decreases StepsToJoin(m.canceller)
  {
    if m.canceller.Joining? {
      steps := [];
    } else {
      var step := CancellerStep(m.canceller);
      StepKeepsInv(m, step);
      var rest := CancellerCanJoin(Apply(m, step));
      ExecFrom(m, step, rest);
      steps := [step] + rest;
    }
  }

  lemma {:induction false} CancellerCanReturn(m: State) returns (steps: seq<Step>)
    requires Inv(m) && (AtThread(m.canceller) || m.canceller.Returned?)
    ensures Exec(m, steps).Some? && Exec(m, steps).value.canceller == Returned
    decreases if m.canceller.Returned? then 0 else 1 + |m.threads| - m.canceller.i
  {
    if m.canceller.Returned? {
      steps := [];
    } else {
      var first := CancellerCanJoin(m);
      var m1 := Exec(m, first).value;
      var second := ThreadCanEnd(m1, m.canceller.i);
      var m2 := Exec(m1, second).value;
      StepKeepsInv(m2, Join);
      var rest := CancellerCanReturn(Apply(m2, Join));
      ExecFrom(m2, Join, rest);
      ExecAppend(m1, second, [Join] + rest);
      ExecAppend(m, first, second + ([Join] + rest));
      steps := first + (second + ([Join] + rest));
    }
  }

  /**
   Whatever state the threads are in, cancel_all_threads can go on to its return: every thread can reach
   its end by its own steps, at the latest in its next ocall.
   */
  lemma CancelAllCanReturn(s: State, run: seq<Step>, m: State) returns (steps: seq<Step>)
    requires Init(s) && Exec(s, run) == Some(m)
    ensures Exec(m, steps).Some? && Exec(m, steps).value.canceller == Returned
  {
    ReachableInv(s, run);
    if m.canceller.Idle? {
      StepKeepsInv(m, CancelAll);
      var rest := CancellerCanReturn(Apply(m, CancelAll));
      ExecFrom(m, CancelAll, rest);
      steps := [CancelAll] + rest;
    } else {
      steps := CancellerCanReturn(m);
    }
  }
}
