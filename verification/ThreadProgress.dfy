/**
 What the threads of ThreadLifecycle can always still do: a creation returns, a join finishes, and a
 thread that was detached or joined leaves the enclave and deletes its descriptor.
 */
module ThreadProgress {
  import opened Common
  import opened ThreadQueue
  import opened ThreadLifecycle

  /** The run so far has not aborted or faulted, and thread d broke no rule. */
  predicate Healthy(m: State, d: Id) {
    m.status == Status.Running && d in m.creators && d !in m.unsafe
  }

  // ---------- the thread itself ----------

  /** Steps of the host thread that executes thread d. */
  predicate WorkerSteps(steps: seq<Step>, d: Id) {
    forall step :: step in steps ==>
      step == SetRunning(d) || step == SetDone(d) || step == Release(d) || (step.Exit? && step.d == d)
  }

  predicate JoinFinished(m: State, d: Id) {
    d in m.joiners && m.joiners[d].Finished?
  }

  /** Nobody will use the descriptor of d any more, except its own thread. */
  predicate GivenUp(m: State, d: Id) {
    CreatorIs(m, d, Returned(false)) || JoinFinished(m, d)
  }

  /** The next step of the thread; the value is what its function returns. */
  function WorkerStep(w: Worker, d: Id, value: int): Step
    requires w != Released
  {
    match w
    case Popped => SetRunning(d)
    case Executing => Exit(d, value)
    case Finishing => SetDone(d)
    case AwaitingJoin => Release(d)
  }

  lemma WorkerAdvances(m: State, d: Id, value: int)
    requires Inv(m) && Healthy(m, d) && d in m.workers && m.workers[d] != Released
    requires m.workers[d] == AwaitingJoin ==> GivenUp(m, d)
    ensures var step := WorkerStep(m.workers[d], d, value);
      && Enabled(m, step) && Inv(Apply(m, step)) && Healthy(Apply(m, step), d)
      && Apply(m, step).creators == m.creators && Apply(m, step).joiners == m.joiners
      && d in Apply(m, step).workers
      && StepsToRelease(Apply(m, step).workers[d]) == StepsToRelease(m.workers[d]) - 1
  {
    assert LifeInv(m, d);
    var step := WorkerStep(m.workers[d], d, value);
    StepKeepsInv(m, step);
    WorkKeepsLife(m, step, d);
    WorkerMoves(m, d, value);
  }

  lemma WorkerMoves(m: State, d: Id, value: int)
    requires Healthy(m, d) && LifeInv(m, d) && d in m.workers && d !in m.queue && m.workers[d] != Released
    requires m.workers[d] == AwaitingJoin ==> GivenUp(m, d)
    ensures var step := WorkerStep(m.workers[d], d, value);
      && Enabled(m, step)
      && Apply(m, step).creators == m.creators && Apply(m, step).joiners == m.joiners
      && d in Apply(m, step).workers
      && StepsToRelease(Apply(m, step).workers[d]) == StepsToRelease(m.workers[d]) - 1
  {
  }

  lemma {:induction false} WorkerCanRelease(m: State, d: Id, value: int) returns (steps: seq<Step>)
    requires Inv(m) && Healthy(m, d) && GivenUp(m, d) && d in m.workers
    ensures WorkerSteps(steps, d) && |steps| == StepsToRelease(m.workers[d])
    ensures Exec(m, steps).Some? && Inv(Exec(m, steps).value) && Healthy(Exec(m, steps).value, d)
    ensures WorkerIs(Exec(m, steps).value, d, Released)
    decreases StepsToRelease(m.workers[d])
  {
    if m.workers[d] == Released {
      steps := [];
    } else {
      var step := WorkerStep(m.workers[d], d, value);
      WorkerAdvances(m, d, value);
      var rest := WorkerCanRelease(Apply(m, step), d, value);
      ExecFrom(m, step, rest);
      steps := [step] + rest;
    }
  }

  lemma {:induction false} CreatedBy(s: State, run: seq<Step>, d: Id) returns (detached: bool)
    requires Init(s) && Exec(s, run).Some? && d in Exec(s, run).value.creators
    ensures Create(d, detached) in run
  {
    var before, step := run[..|run| - 1], run[|run| - 1];
    if d in Exec(s, before).value.creators {
      detached := CreatedBy(s, before, d);
    } else {
      NewCreator(Exec(s, before).value, step, d);
      detached := step.detached;
    }
    assert run == before + [step];
  }

  lemma NewCreator(s: State, step: Step, d: Id)
    requires Enabled(s, step) && d !in s.creators && d in Apply(s, step).creators
    ensures step.Create? && step.d == d
  {
  }

  /** pthread_create returned and made the thread detached, or somebody detached it. */
  predicate WasDetached(run: seq<Step>, m: State, d: Id) {
    (Create(d, true) in run && d in m.creators && m.creators[d].Returned?) || DetachedLater(run, d)
  }

  /**
   A thread that was detached, or whose join has finished, needs at most four more steps of its own to
   delete its descriptor, which nobody has deleted before.
   */
  lemma ThreadIsReleased(s: State, run: seq<Step>, m: State, d: Id, value: int) returns (steps: seq<Step>)
    requires Init(s) && Exec(s, run) == Some(m) && Healthy(m, d)
    requires WasDetached(run, m, d) || JoinFinished(m, d)
    ensures WorkerSteps(steps, d) && |steps| <= 4
    ensures steps == [] <==> d in m.deleted
    ensures Exec(m, steps).Some? && Exec(m, steps).value.status == Status.Running
    ensures var s' := Exec(m, steps).value; d in s'.deleted && Distinct(s'.deleted) && d !in s'.descs
  {
    ReachableInv(s, run);
    if WasDetached(run, m, d) {
      DetachedIsGivenUp(s, run, m, d);
    }
    ReleasedIsDeleted(m, d);
    steps := WorkerCanRelease(m, d, value);
    ReleasedIsDeleted(Exec(m, steps).value, d);
  }

  lemma DetachedIsGivenUp(s: State, run: seq<Step>, m: State, d: Id)
    requires Init(s) && Exec(s, run) == Some(m) && Healthy(m, d) && WasDetached(run, m, d)
    ensures CreatorIs(m, d, Returned(false))
  {
    var detached := CreatedBy(s, run, d);
    if Create(d, true) in run {
      CreatorFitsAttr(s, run, d, true);
    } else {
      CreatorFitsAttr(s, run, d, detached);
    }
  }

  lemma ReleasedIsDeleted(m: State, d: Id)
    requires Inv(m) && Healthy(m, d) && GivenUp(m, d)
    ensures d in m.workers && (WorkerIs(m, d, Released) <==> d in m.deleted) && (d in m.deleted <==> d !in m.descs)
  {
    assert LifeInv(m, d);
  }

  // ---------- the thread that joins ----------

  predicate JoinerSteps(steps: seq<Step>, d: Id) {
    forall step :: step in steps ==> step == JoinSees(d) || step == JoinReads(d) || step == JoinUpdates(d)
  }

  function StepsToJoin(j: Joiner): nat {
    match j
    case Waiting => 3
    case Reading => 2
    case Updating(_) => 1
    case Finished(_) => 0
  }

  function JoinerStep(j: Joiner, d: Id): Step {
    match j
    case Waiting => JoinSees(d)
    case Reading => JoinReads(d)
    case _ => JoinUpdates(d)
  }

  /** pthread_join of d was called, and the thread has ended if the join is still waiting. */
  predicate JoinReady(m: State, d: Id) {
    d in m.joiners && (m.joiners[d] == Waiting ==> d in m.descs && m.descs[d].state == Done)
  }

  lemma JoinerMoves(m: State, d: Id)
    requires Healthy(m, d) && LifeInv(m, d) && JoinReady(m, d) && !JoinFinished(m, d)
    ensures var step := JoinerStep(m.joiners[d], d);
      && Enabled(m, step) && JoinReady(Apply(m, step), d)
      && StepsToJoin(Apply(m, step).joiners[d]) == StepsToJoin(m.joiners[d]) - 1
      && Apply(m, step).exits == m.exits
  {
  }

  lemma {:induction false} JoinerCanFinish(m: State, d: Id) returns (steps: seq<Step>)
    requires Inv(m) && Healthy(m, d) && JoinReady(m, d)
    ensures JoinerSteps(steps, d) && |steps| == StepsToJoin(m.joiners[d])
    ensures Exec(m, steps).Some? && Inv(Exec(m, steps).value) && Healthy(Exec(m, steps).value, d)
    ensures JoinFinished(Exec(m, steps).value, d) && Exec(m, steps).value.exits == m.exits
    decreases StepsToJoin(m.joiners[d])
  {
    if JoinFinished(m, d) {
      steps := [];
    } else {
      assert LifeInv(m, d);
      var step := JoinerStep(m.joiners[d], d);
      JoinerMoves(m, d);
      JoinKeepsLife(m, step, d);
      StepKeepsInv(m, step);
      var rest := JoinerCanFinish(Apply(m, step), d);
      ExecFrom(m, step, rest);
      steps := [step] + rest;
    }
  }

  /**
   Once the thread has ended, a join needs at most three steps of its own to return the value that the
   thread returned or passed to pthread_exit.
   */
  lemma JoinFinishes(s: State, run: seq<Step>, m: State, d: Id) returns (steps: seq<Step>)
    requires Init(s) && Exec(s, run) == Some(m) && Healthy(m, d) && JoinReady(m, d)
    ensures JoinerSteps(steps, d) && |steps| <= 3
    ensures Exec(m, steps).Some? && Exec(m, steps).value.status == Status.Running
    ensures var s' := Exec(m, steps).value; JoinFinished(s', d) && Exit(d, s'.joiners[d].value) in run
  {
    ReachableInv(s, run);
    ExitsAreSteps(s, run, d);
    steps := JoinerCanFinish(m, d);
    assert LifeInv(Exec(m, steps).value, d);
  }

  lemma {:induction false} ExecAppend(s: State, a: seq<Step>, b: seq<Step>)
    requires Exec(s, a).Some? && Exec(Exec(s, a).value, b).Some?
    ensures Exec(s, a + b) == Exec(Exec(s, a).value, b)
  {
    if b == [] {
      assert a + b == a;
    } else {
      ExecAppend(s, a, b[..|b| - 1]);
      assert (a + b)[..|a + b| - 1] == a + b[..|b| - 1];
    }
  }

  lemma {:induction false} WorkerCanEnd(m: State, d: Id, value: int) returns (steps: seq<Step>)
    requires Inv(m) && Healthy(m, d) && d in m.workers
    ensures WorkerSteps(steps, d)
    ensures Exec(m, steps).Some? && Inv(Exec(m, steps).value) && Healthy(Exec(m, steps).value, d)
    ensures Exec(m, steps).value.joiners == m.joiners
    ensures WorkerIs(Exec(m, steps).value, d, AwaitingJoin) || WorkerIs(Exec(m, steps).value, d, Released)
    decreases StepsToRelease(m.workers[d])
  {
    if StepsToRelease(m.workers[d]) <= 1 {
      steps := [];
    } else {
      var step := WorkerStep(m.workers[d], d, value);
      WorkerAdvances(m, d, value);
      var rest := WorkerCanEnd(Apply(m, step), d, value);
      ExecFrom(m, step, rest);
      steps := [step] + rest;
    }
  }

  /** When the thread function of d can return, its join can return too, and the thread then leaves the enclave. */
  lemma JoinCanComplete(s: State, run: seq<Step>, m: State, d: Id, value: int)
    returns (ending: seq<Step>, joining: seq<Step>, releasing: seq<Step>)
    requires Init(s) && Exec(s, run) == Some(m) && Healthy(m, d) && d in m.joiners
    ensures WorkerSteps(ending, d) && JoinerSteps(joining, d) && WorkerSteps(releasing, d)
    ensures Exec(m, ending + (joining + releasing)).Some?
    ensures var s' := Exec(m, ending + (joining + releasing)).value;
      JoinFinished(s', d) && d in s'.deleted && Distinct(s'.deleted)
  {
    ReachableInv(s, run);
    assert LifeInv(m, d);
    ending := WorkerCanEnd(m, d, value);
    var m1 := Exec(m, ending).value;
    assert LifeInv(m1, d);
    joining := JoinerCanFinish(m1, d);
    var m2 := Exec(m1, joining).value;
    ReleasedIsDeleted(m2, d);
    releasing := WorkerCanRelease(m2, d, value);
    FinishedStays(m2, releasing, d);
    ReleasedIsDeleted(Exec(m2, releasing).value, d);
    ExecAppend(m1, joining, releasing);
    ExecAppend(m, ending, joining + releasing);
  }

  lemma FinishedStep(s: State, step: Step, d: Id)
    requires Enabled(s, step) && JoinFinished(s, d)
    ensures JoinFinished(Apply(s, step), d)
  {
  }

  lemma {:induction false} FinishedStays(m: State, later: seq<Step>, d: Id)
    requires Exec(m, later).Some? && JoinFinished(m, d)
    ensures JoinFinished(Exec(m, later).value, d)
  {
    if later != [] {
      FinishedStays(m, later[..|later| - 1], d);
      FinishedStep(Exec(m, later[..|later| - 1]).value, later[|later| - 1], d);
    }
  }

  // ---------- the creation ----------

  /** No thread is created, no creation fails and no thread detaches itself. */
  predicate OnlyPending(steps: seq<Step>) {
    forall step :: step in steps ==> !step.Create? && !step.SpawnFails? && !step.SelfDetach?
  }

  predicate Pending(m: State, d: Id) {
    d in m.creators && (m.creators[d].Calling? || m.creators[d].Awaiting?)
  }

  /** Somebody is still in the ocall that creates a host thread, d itself if it is. */
  lemma SomeoneCalls(m: State, d: Id) returns (e: Id)
    requires CallingIds(m.creators) != {} && d in m.creators
    ensures e in m.creators && m.creators[e].Calling? && (m.creators[d].Calling? ==> e == d)
  {
    if m.creators[d].Calling? {
      e := d;
    } else {
      e :| e in CallingIds(m.creators);
    }
  }

  lemma SpawnStep(m: State, d: Id, e: Id)
    requires Inv(m) && Healthy(m, d) && Pending(m, d) && Enabled(m, Spawn(e))
    ensures var m' := Apply(m, Spawn(e));
      && Inv(m') && Healthy(m', d) && Pending(m', d) && m'.mismatches == m.mismatches
      && m'.queue == m.queue && |CallingIds(m'.creators)| == |CallingIds(m.creators)| - 1
  {
    StepKeepsInv(m, Spawn(e));
    CallingRemoved(m.creators, e, Awaiting(m.creators[e].detached));
  }

  lemma PopStep(m: State, d: Id)
    requires Inv(m) && Healthy(m, d) && Pending(m, d) && m.queue != [] && Enabled(m, Pop)
    ensures var m' := Apply(m, Pop);
      && Inv(m') && Healthy(m', d) && Pending(m', d) && m'.mismatches == m.mismatches
      && m'.creators == m.creators && m'.queue == m.queue[1..]
  {
    StepKeepsInv(m, Pop);
  }

  lemma PopReady(m: State, d: Id)
    requires Inv(m) && Healthy(m, d) && m.mismatches == 0 && CallingIds(m.creators) == {} && d in m.queue
    ensures Enabled(m, Pop)
  {
  }

  /** All host threads are created and enter until one of them has taken d off the queue. */
  lemma {:induction false} QueueCanDrain(m: State, d: Id) returns (steps: seq<Step>)
    requires Inv(m) && Healthy(m, d) && Pending(m, d) && m.mismatches == 0
    ensures OnlyPending(steps) && Exec(m, steps).Some?
    ensures var s' := Exec(m, steps).value;
      Inv(s') && Healthy(s', d) && s'.creators.Keys == m.creators.Keys && s'.creators[d].Awaiting? && d !in s'.queue
    decreases |m.queue| + |CallingIds(m.creators)|
  {
    if m.creators[d].Awaiting? && d !in m.queue {
      steps := [];
    } else if CallingIds(m.creators) != {} {
      var e := SomeoneCalls(m, d);
      SpawnStep(m, d, e);
      var rest := QueueCanDrain(Apply(m, Spawn(e)), d);
      ExecFrom(m, Spawn(e), rest);
      steps := [Spawn(e)] + rest;
    } else {
      assert d in CallingIds(m.creators) <==> m.creators[d].Calling?;
      PopReady(m, d);
      PopStep(m, d);
      var rest := QueueCanDrain(Apply(m, Pop), d);
      ExecFrom(m, Pop, rest);
      steps := [Pop] + rest;
    }
  }

  /** The steps that a creation has left once a host thread has taken d. */
  function StepsToReturn(m: State, d: Id): nat {
    if d !in m.creators then 0
    else match m.creators[d]
      case Awaiting(_) => if WorkerIs(m, d, Popped) then 3 else 2
      case Detaching => 1
      case _ => 0
  }

  function ReturningStep(m: State, d: Id): Step {
    if CreatorIs(m, d, Detaching) then DetachByAttr(d)
    else if WorkerIs(m, d, Popped) then SetRunning(d)
    else CreatorReturns(d)
  }

  lemma CreationMoves(m: State, d: Id)
    requires Healthy(m, d) && LifeInv(m, d) && d !in m.queue && (m.creators[d].Awaiting? || m.creators[d].Detaching?)
    ensures var step := ReturningStep(m, d);
      && Enabled(m, step) && !step.Create? && !step.SpawnFails? && !step.SelfDetach?
      && Healthy(Apply(m, step), d) && d !in Apply(m, step).queue
      && !Apply(m, step).creators[d].Calling? && !Apply(m, step).creators[d].Failed?
      && StepsToReturn(Apply(m, step), d) < StepsToReturn(m, d)
  {
  }

  lemma {:induction false} StartedCanReturn(m: State, d: Id) returns (steps: seq<Step>)
    requires Inv(m) && Healthy(m, d) && d !in m.queue && !m.creators[d].Calling? && !m.creators[d].Failed?
    ensures OnlyPending(steps) && Exec(m, steps).Some?
    ensures var s' := Exec(m, steps).value; Healthy(s', d) && s'.creators[d].Returned?
    decreases StepsToReturn(m, d)
  {
    if m.creators[d].Returned? {
      steps := [];
    } else {
      assert LifeInv(m, d);
      CreationMoves(m, d);
      StepKeepsInv(m, ReturningStep(m, d));
      var rest := StartedCanReturn(Apply(m, ReturningStep(m, d)), d);
      ExecFrom(m, ReturningStep(m, d), rest);
      steps := [ReturningStep(m, d)] + rest;
    }
  }

  /**
   As long as the entry of every failed creation was still in the queue, no creation waits in vain: when
   the host creates the pending threads and they enter, pthread_create returns.
   */
  lemma CreationCanReturn(s: State, run: seq<Step>, m: State, d: Id) returns (steps: seq<Step>)
    requires Init(s) && Exec(s, run) == Some(m) && Healthy(m, d) && m.mismatches == 0
    requires !m.creators[d].Failed?
    ensures OnlyPending(steps) && Exec(m, steps).Some?
    ensures var s' := Exec(m, steps).value; Healthy(s', d) && s'.creators[d].Returned?
  {
    ReachableInv(s, run);
    assert LifeInv(m, d);
    if Pending(m, d) {
      var first := QueueCanDrain(m, d);
      var rest := StartedCanReturn(Exec(m, first).value, d);
      ExecAppend(m, first, rest);
      steps := first + rest;
    } else {
      steps := StartedCanReturn(m, d);
    }
  }

  lemma MismatchesStep(s: State, step: Step)
    requires Enabled(s, step)
    ensures s.mismatches <= Apply(s, step).mismatches
  {
    if !ChangesQueue(step) {
      QueueUnchanged(s, step);
    }
  }

  lemma {:induction false} MismatchesStay(m: State, later: seq<Step>)
    requires Exec(m, later).Some?
    ensures m.mismatches <= Exec(m, later).value.mismatches
  {
    if later != [] {
      MismatchesStay(m, later[..|later| - 1]);
      MismatchesStep(Exec(m, later[..|later| - 1]).value, later[|later| - 1]);
    }
  }

  lemma {:induction false} InvStays(m: State, later: seq<Step>)
    requires Inv(m) && Exec(m, later).Some?
    ensures Inv(Exec(m, later).value)
  {
    if later != [] {
      InvStays(m, later[..|later| - 1]);
      StepKeepsInv(Exec(m, later[..|later| - 1]).value, later[|later| - 1]);
    }
  }

  /**
   Otherwise, whatever happens later, as many threads as there were such failures sit in the queue for
   ever, each with a creation that nobody has served.
   */
  lemma MismatchStrandsSomebody(s: State, run: seq<Step>, m: State, later: seq<Step>)
    requires Init(s) && Exec(s, run) == Some(m) && Exec(m, later).Some?
    ensures var s' := Exec(m, later).value;
      m.mismatches <= |s'.queue| && forall d :: d in s'.queue && d !in s'.unsafe ==> Pending(s', d)
  {
    ReachableInv(s, run);
    InvStays(m, later);
    MismatchesStay(m, later);
    forall d | d in Exec(m, later).value.queue && d !in Exec(m, later).value.unsafe
      ensures Pending(Exec(m, later).value, d)
    {
      assert LifeInv(Exec(m, later).value, d);
    }
  }
}
