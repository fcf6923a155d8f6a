/**
 The life of a thread descriptor: _thread_create, pthread_create, pthread_join, pthread_detach,
 pthread_exit and ert_create_thread_ecall of src/ertlibc/pthread.cpp, over src/ertlibc/new_thread.cpp.

 Each section under the queue lock or a descriptor's mutex, and each access outside, is one step.
 Clients join each thread once, or detach it once, after pthread_create returned; a thread may also
 detach itself at any time.  The enclave is not exiting.
 */
module ThreadLifecycle {
  import opened Common
  import opened ThreadQueue

  type Id = nat

  datatype Desc = Desc(state: ThreadState, detached: bool, returnValue: int)

  /** pthread_create; detached is the detach state in the attributes. */
  datatype Creator =
    | Calling(detached: bool)    // queued, in the ocall that creates a host thread
    | Awaiting(detached: bool)   // waits until the state is no longer Queued
    | Detaching
    | Returned(joinable: bool)   // joinable until somebody detaches the thread
    | Failed

  /** ert_create_thread_ecall */
  datatype Worker =
    | Popped
    | Executing
    | Finishing      // the return value is set
    | AwaitingJoin
    | Released       // the descriptor is deleted

  /** pthread_join */
  datatype Joiner = Waiting | Reading | Updating(value: int) | Finished(value: int)

  /**
   Aborted: a thread entered and the queue was empty.  Faulted: a deleted descriptor was used, or an
   assertion failed.
   */
  datatype Status = Running | Aborted | Faulted

  /**
   spawned is the number of host threads that have not popped yet.  exits has the values that thread
   functions returned or passed to pthread_exit.  The last fields record rule breaking: mismatches is
   the number of failed creations whose descriptor another thread had already popped, unsafe has
   these descriptors and those of threads that detached themselves before their creation returned.
   */
  datatype State = State(
    queue: seq<Id>, spawned: nat, descs: map<Id, Desc>, deleted: seq<Id>,
    creators: map<Id, Creator>, workers: map<Id, Worker>, joiners: map<Id, Joiner>,
    exits: map<Id, int>, mismatches: nat, unsafe: set<Id>, status: Status)

  datatype Step =
    | Create(d: Id, detached: bool)
    | Spawn(d: Id)
    | SpawnFails(d: Id)
    | CreatorReturns(d: Id)
    | DetachByAttr(d: Id)
    | Pop
    | SetRunning(d: Id)
    | Exit(d: Id, value: int)
    | SetDone(d: Id)
    | Release(d: Id)
    | JoinCall(d: Id)
    | JoinSees(d: Id)
    | JoinReads(d: Id)
    | JoinUpdates(d: Id)
    | Detach(d: Id)
    | SelfDetach(d: Id)

  predicate Init(s: State) {
    s == State([], 0, map[], [], map[], map[], map[], map[], 0, {}, Status.Running)
  }

  predicate CreatorIs(s: State, d: Id, c: Creator) {
    d in s.creators && s.creators[d] == c
  }

  predicate WorkerIs(s: State, d: Id, w: Worker) {
    d in s.workers && s.workers[d] == w
  }

  predicate Enabled(s: State, step: Step) {
    && s.status == Status.Running
    && match step
       case Create(d, _) => d !in s.creators
       case Spawn(d) => d in s.creators && s.creators[d].Calling?
       case SpawnFails(d) => d in s.creators && s.creators[d].Calling?
       case CreatorReturns(d) =>
         d in s.creators && s.creators[d].Awaiting? && (d in s.descs ==> s.descs[d].state != Queued)
       case DetachByAttr(d) => CreatorIs(s, d, Detaching)
       case Pop => 0 < s.spawned
       case SetRunning(d) => WorkerIs(s, d, Popped)
       case Exit(d, _) => WorkerIs(s, d, Executing)
       case SetDone(d) => WorkerIs(s, d, Finishing)
       case Release(d) =>
         WorkerIs(s, d, AwaitingJoin) && (d in s.descs ==> s.descs[d].state == Joined || s.descs[d].detached)
       case JoinCall(d) => CreatorIs(s, d, Returned(true)) && d !in s.joiners
       case JoinSees(d) => d in s.joiners && s.joiners[d] == Waiting && (d in s.descs ==> s.descs[d].state == Done)
       case JoinReads(d) => d in s.joiners && s.joiners[d] == Reading
       case JoinUpdates(d) => d in s.joiners && s.joiners[d].Updating?
       case Detach(d) => CreatorIs(s, d, Returned(true)) && d !in s.joiners
       case SelfDetach(d) => WorkerIs(s, d, Executing) && d in s.creators && MayDetach(s.creators[d]) && d !in s.joiners
  }

  predicate MayDetach(c: Creator) {
    c == Returned(true) || c == Awaiting(false) || c == Calling(false)
  }

  /** The step accesses the descriptor of d. */
  predicate Uses(step: Step) {
    !step.Create? && !step.Spawn? && !step.Pop? && !step.JoinCall?
  }

  function Fault(s: State): State {
    s.(status := Faulted)
  }

  function WithDesc(s: State, d: Id, desc: Desc): (r: State)
    requires d in s.descs
    ensures r.descs.Keys == s.descs.Keys
  {
    s.(descs := s.descs[d := desc])
  }

  function Delete(s: State, d: Id): State {
    s.(descs := s.descs - {d}, deleted := s.deleted + [d])
  }

  function Apply(s: State, step: Step): State
    requires Enabled(s, step)
  {
    if Uses(step) && step.d !in s.descs then Fault(s) else
    match step
    case Create(d, detached) =>
      s.(queue := s.queue + [d], descs := s.descs[d := Desc(Queued, false, 0)],
         creators := s.creators[d := Calling(detached)])
    case Spawn(d) => s.(spawned := s.spawned + 1, creators := s.creators[d := Awaiting(s.creators[d].detached)])
    case SpawnFails(d) =>
      var s1 := Delete(s.(queue := Without(s.queue, d), creators := s.creators[d := Failed]), d);
      if d in s.queue then s1 else s1.(mismatches := s.mismatches + 1, unsafe := s.unsafe + {d})
    case CreatorReturns(d) =>
      s.(creators := s.creators[d := if s.creators[d].detached then Detaching else Returned(true)])
    case DetachByAttr(d) => ApplyDetach(s, d)
    case Pop =>
      if s.queue == [] then s.(status := Aborted) else
        s.(queue := s.queue[1..], spawned := s.spawned - 1, workers := s.workers[s.queue[0] := Popped])
    case SetRunning(d) =>
      WithDesc(s.(workers := s.workers[d := Executing]), d, s.descs[d].(state := ThreadState.Running))
    case Exit(d, value) =>
      var s1 := s.(workers := s.workers[d := Finishing], exits := s.exits[d := value]);
      WithDesc(s1, d, s.descs[d].(returnValue := value))
    case SetDone(d) => WithDesc(s.(workers := s.workers[d := AwaitingJoin]), d, s.descs[d].(state := Done))
    case Release(d) => Delete(s.(workers := s.workers[d := Released]), d)
    case JoinCall(d) => s.(joiners := s.joiners[d := Waiting])
    case JoinSees(d) => s.(joiners := s.joiners[d := Reading])
    case JoinReads(d) => s.(joiners := s.joiners[d := Updating(s.descs[d].returnValue)])
    case JoinUpdates(d) =>
      WithDesc(s.(joiners := s.joiners[d := Finished(s.joiners[d].value)]), d, s.descs[d].(state := Joined))
    case Detach(d) => ApplyDetach(s, d)
    case SelfDetach(d) =>
      if s.creators[d].Returned? then ApplyDetach(s, d)
      else if s.descs[d].detached then Fault(s)
      else WithDesc(s.(unsafe := s.unsafe + {d}), d, s.descs[d].(detached := true))
  }

  /** oe_new_thread_detach, once the creation has returned or is about to. */
  function ApplyDetach(s: State, d: Id): State
    requires d in s.descs
  {
    if s.descs[d].detached then Fault(s)
    else WithDesc(s.(creators := s.creators[d := Returned(false)]), d, s.descs[d].(detached := true))
  }

  /** The state after the steps, or None if one of them is not enabled when it is taken. */
  function Exec(s: State, steps: seq<Step>): Option<State> {
    if steps == [] then Some(s) else
      match Exec(s, steps[..|steps| - 1])
      case None => None
      case Some(m) =>
        var step := steps[|steps| - 1];
        if Enabled(m, step) then Some(Apply(m, step)) else None
  }

  // ---------- the creation queue ----------

  ghost function CallingIds(creators: map<Id, Creator>): set<Id> {
    set d | d in creators && creators[d].Calling?
  }

  /** The queue has an entry for each host thread that will enter, each pending creation and each mismatch. */
  predicate QueueInv(s: State) {
    && Distinct(s.queue)
    && (forall d :: d in s.queue ==> d in s.creators && d !in s.workers)
    && (forall d :: d in s.workers ==> d in s.creators)
  }

  ghost predicate CountInv(s: State) {
    && |s.queue| == s.spawned + |CallingIds(s.creators)| + s.mismatches
    && s.status != Aborted
  }

  /** Creates, starts or ends a creation, or takes an entry off the queue. */
  predicate ChangesQueue(step: Step) {
    step.Create? || step.Spawn? || step.SpawnFails? || step.Pop?
  }

  lemma QueueUnchanged(s: State, step: Step)
    requires Enabled(s, step) && !ChangesQueue(step)
    ensures SameQueue(s, Apply(s, step))
  {
    if step.Detach? || step.SelfDetach? || step.DetachByAttr? || step.CreatorReturns? {
      CreatorStepKeepsQueue(s, step);
    }
  }

  predicate SameQueue(s: State, s': State) {
    && s'.queue == s.queue && s'.spawned == s.spawned && s'.mismatches == s.mismatches && s'.status != Aborted
    && s'.workers.Keys == s.workers.Keys && s.creators.Keys == s'.creators.Keys
    && (forall d :: d in s.creators ==> (s.creators[d].Calling? <==> s'.creators[d].Calling?))
  }

  lemma DetachKeepsQueue(s: State, d: Id)
    requires d in s.descs && d in s.creators && !s.creators[d].Calling? && s.status != Aborted
    ensures SameQueue(s, ApplyDetach(s, d))
  {
  }

  lemma CreatorStepKeepsQueue(s: State, step: Step)
    requires Enabled(s, step) && (step.Detach? || step.SelfDetach? || step.DetachByAttr? || step.CreatorReturns?)
    ensures SameQueue(s, Apply(s, step))
  {
    if step.d in s.descs && !s.creators[step.d].Calling? {
      DetachKeepsQueue(s, step.d);
    }
  }

  lemma QueueInvFrame(s: State, s': State)
    requires QueueInv(s) && s'.queue == s.queue
    requires s'.workers.Keys == s.workers.Keys && s'.creators.Keys == s.creators.Keys
    ensures QueueInv(s')
  {
  }

  lemma CallingFrame(was: map<Id, Creator>, now: map<Id, Creator>)
    requires was.Keys == now.Keys && forall d :: d in was ==> (was[d].Calling? <==> now[d].Calling?)
    ensures CallingIds(was) == CallingIds(now)
  {
  }

  lemma StepKeepsQueueInv(s: State, step: Step)
    requires QueueInv(s) && Enabled(s, step)
    ensures QueueInv(Apply(s, step))
  {
    if ChangesQueue(step) {
      QueueStepKeepsQueueInv(s, step);
    } else {
      QueueUnchanged(s, step);
      QueueInvFrame(s, Apply(s, step));
    }
  }

  lemma QueueStepKeepsQueueInv(s: State, step: Step)
    requires QueueInv(s) && Enabled(s, step) && ChangesQueue(step)
    ensures QueueInv(Apply(s, step))
  {
    match step
    case SpawnFails(d) => WithoutMeans(s.queue, d);
    case Pop => PopKeepsQueueInv(s);
    case _ =>
  }

  lemma PopKeepsQueueInv(s: State)
    requires QueueInv(s) && Enabled(s, Pop)
    ensures QueueInv(Apply(s, Pop))
  {
    if s.queue != [] {
      assert s.queue == [s.queue[0]] + s.queue[1..];
    }
  }

  lemma CallingAdded(creators: map<Id, Creator>, d: Id, detached: bool)
    requires d !in creators
    ensures |CallingIds(creators[d := Calling(detached)])| == |CallingIds(creators)| + 1
  {
    assert CallingIds(creators[d := Calling(detached)]) == CallingIds(creators) + {d};
  }

  lemma CallingRemoved(creators: map<Id, Creator>, d: Id, c: Creator)
    requires d in creators && creators[d].Calling? && !c.Calling?
    ensures |CallingIds(creators[d := c])| == |CallingIds(creators)| - 1
  {
    assert CallingIds(creators[d := c]) == CallingIds(creators) - {d};
  }

  lemma StepKeepsCountInv(s: State, step: Step)
    requires CountInv(s) && Enabled(s, step)
    ensures CountInv(Apply(s, step))
  {
    if ChangesQueue(step) {
      QueueStepKeepsCountInv(s, step);
    } else {
      QueueUnchanged(s, step);
      CallingFrame(s.creators, Apply(s, step).creators);
    }
  }

  lemma QueueStepKeepsCountInv(s: State, step: Step)
    requires CountInv(s) && Enabled(s, step) && ChangesQueue(step)
    ensures CountInv(Apply(s, step))
  {
    match step
    case Create(d, detached) => CallingAdded(s.creators, d, detached);
    case Spawn(d) => CallingRemoved(s.creators, d, Awaiting(s.creators[d].detached));
    case SpawnFails(d) => CallingRemoved(s.creators, d, Failed);
    case Pop =>
  }

  // ---------- one descriptor ----------

  predicate WorkerInv(s: State, d: Id)
    requires d in s.creators && d in s.workers
  {
    var c := s.creators[d];
    match s.workers[d]
    case Popped => d in s.descs && s.descs[d].state == Queued && (c.Calling? || c.Awaiting?) && d !in s.exits
    case Executing => d in s.descs && s.descs[d].state == ThreadState.Running && d !in s.exits
    case Finishing => d in s.descs && s.descs[d].state == ThreadState.Running && ValueKept(s, d)
    case AwaitingJoin => d in s.descs && (s.descs[d].state == Done || s.descs[d].state == Joined) && ValueKept(s, d)
    case Released =>
      && d !in s.descs && d in s.exits && c.Returned?
      && (c.joinable ==> d in s.joiners && s.joiners[d].Finished?)
  }

  predicate ValueKept(s: State, d: Id)
    requires d in s.descs
  {
    d in s.exits && s.exits[d] == s.descs[d].returnValue
  }

  predicate JoinerInv(s: State, d: Id) {
    && (d in s.joiners ==>
      && CreatorIs(s, d, Returned(true))
      && match s.joiners[d]
         case Waiting => d in s.descs && s.descs[d].state != Joined
         case Reading => d in s.descs && s.descs[d].state == Done
         case Updating(v) => d in s.descs && s.descs[d].state == Done && d in s.exits && s.exits[d] == v
         case Finished(v) => (d in s.descs ==> s.descs[d].state == Joined) && d in s.exits && s.exits[d] == v)
    && (d in s.descs && s.descs[d].state == Joined ==> d in s.joiners && s.joiners[d].Finished?)
  }

  predicate LifeInv(s: State, d: Id)
    requires d in s.creators
  {
    var c := s.creators[d];
    if d in s.queue then
      && d in s.descs && s.descs[d].state == Queued && !s.descs[d].detached
      && d !in s.workers && d !in s.joiners && d !in s.exits && (c.Calling? || c.Awaiting?)
    else if d !in s.workers then c == Failed && d !in s.descs && d !in s.joiners && d !in s.exits
    else
      && c != Failed && WorkerInv(s, d) && JoinerInv(s, d)
      && (d in s.descs ==> (s.descs[d].detached <==> c == Returned(false)))
  }

  ghost predicate DeletedInv(s: State) {
    && Distinct(s.deleted)
    && (forall d :: d in s.deleted ==> d in s.creators && d !in s.descs)
    && (forall d :: d in s.creators ==> d in s.descs || d in s.deleted)
    && (forall d :: d in s.descs || d in s.joiners || d in s.exits || d in s.unsafe ==> d in s.creators)
  }

  ghost predicate Inv(s: State) {
    && QueueInv(s) && CountInv(s) && DeletedInv(s)
    && (forall d :: d in s.creators && d !in s.unsafe ==> LifeInv(s, d))
    && (s.unsafe == {} ==> s.status == Status.Running)
  }

  /** Nothing that the invariant of e depends on has changed. */
  predicate SameFor(s: State, s': State, e: Id) {
    && (e in s.queue <==> e in s'.queue) && (e in s.descs <==> e in s'.descs) && (e in s.creators <==> e in s'.creators)
    && (e in s.workers <==> e in s'.workers) && (e in s.joiners <==> e in s'.joiners)
    && (e in s.exits <==> e in s'.exits)
    && (e in s.descs ==> s.descs[e] == s'.descs[e]) && (e in s.creators ==> s.creators[e] == s'.creators[e])
    && (e in s.workers ==> s.workers[e] == s'.workers[e]) && (e in s.joiners ==> s.joiners[e] == s'.joiners[e])
    && (e in s.exits ==> s.exits[e] == s'.exits[e])
  }

  /** The thread that the step belongs to. */
  function Subject(s: State, step: Step): Id
    requires step.Pop? ==> s.queue != []
  {
    if step.Pop? then s.queue[0] else step.d
  }

  lemma OthersSame(s: State, step: Step, e: Id)
    requires QueueInv(s) && Enabled(s, step) && (step.Pop? ==> s.queue != []) && e != Subject(s, step)
    ensures SameFor(s, Apply(s, step), e)
  {
    if ChangesQueue(step) {
      QueueStepChangesOne(s, step, e);
    } else if step.JoinCall? || step.JoinSees? || step.JoinReads? || step.JoinUpdates? {
      JoinChangesOne(s, step, e);
    } else if step.CreatorReturns? || step.DetachByAttr? || step.Detach? || step.SelfDetach? {
      CreatorChangesOne(s, step, e);
    } else {
      WorkChangesOne(s, step, e);
    }
  }

  lemma QueueStepChangesOne(s: State, step: Step, e: Id)
    requires ChangesQueue(step) && QueueInv(s) && Enabled(s, step)
    requires (step.Pop? ==> s.queue != []) && e != Subject(s, step)
    ensures SameFor(s, Apply(s, step), e)
  {
    match step
    case SpawnFails(d) => FailureChangesOne(s, d, e);
    case Pop => PopChangesOne(s, e);
    case _ =>
  }

  lemma FailureChangesOne(s: State, d: Id, e: Id)
    requires QueueInv(s) && Enabled(s, SpawnFails(d)) && e != d
    ensures SameFor(s, Apply(s, SpawnFails(d)), e)
  {
    WithoutMeans(s.queue, d);
  }

  lemma PopChangesOne(s: State, e: Id)
    requires Enabled(s, Pop) && s.queue != [] && e != s.queue[0]
    ensures SameFor(s, Apply(s, Pop), e)
  {
    assert s.queue == [s.queue[0]] + s.queue[1..];
  }

  lemma JoinChangesOne(s: State, step: Step, e: Id)
    requires step.JoinCall? || step.JoinSees? || step.JoinReads? || step.JoinUpdates?
    requires Enabled(s, step) && e != step.d
    ensures SameFor(s, Apply(s, step), e)
  {
  }

  lemma CreatorChangesOne(s: State, step: Step, e: Id)
    requires step.CreatorReturns? || step.DetachByAttr? || step.Detach? || step.SelfDetach?
    requires Enabled(s, step) && e != step.d
    ensures SameFor(s, Apply(s, step), e)
  {
  }

  lemma WorkChangesOne(s: State, step: Step, e: Id)
    requires step.SetRunning? || step.Exit? || step.SetDone? || step.Release?
    requires Enabled(s, step) && e != step.d
    ensures SameFor(s, Apply(s, step), e)
  {
  }

  lemma LifeFrame(s: State, s': State, e: Id)
    requires e in s.creators && LifeInv(s, e) && SameFor(s, s', e)
    ensures LifeInv(s', e)
  {
  }

  lemma CreationKeepsLife(s: State, step: Step, d: Id)
    requires step.Create? || step.Spawn? || step.SpawnFails? || step.CreatorReturns? || step.DetachByAttr?
    requires QueueInv(s) && DeletedInv(s) && Enabled(s, step) && d == step.d
    requires d in s.creators ==> LifeInv(s, d)
    ensures var s' := Apply(s, step);
      && (d in s'.unsafe || (s'.status == Status.Running && LifeInv(s', d)))
      && (d in s'.unsafe <==> d in s.unsafe || (step.SpawnFails? && d !in s.queue))
  {
    if step.SpawnFails? {
      WithoutMeans(s.queue, d);
    }
  }

  lemma WorkKeepsLife(s: State, step: Step, d: Id)
    requires Enabled(s, step) && QueueInv(s) && (step.Pop? ==> s.queue != []) && d == Subject(s, step)
    requires step.Pop? || step.SetRunning? || step.Exit? || step.SetDone? || step.Release?
    requires d in s.creators && LifeInv(s, d)
    ensures var s' := Apply(s, step);
      s'.status == Status.Running && d in s'.creators && LifeInv(s', d) && s'.unsafe == s.unsafe
  {
  }

  lemma JoinKeepsLife(s: State, step: Step, d: Id)
    requires step.JoinCall? || step.JoinSees? || step.JoinReads? || step.JoinUpdates?
    requires Enabled(s, step) && d == step.d
    requires d in s.creators && LifeInv(s, d)
    ensures var s' := Apply(s, step);
      s'.status == Status.Running && d in s'.creators && LifeInv(s', d) && s'.unsafe == s.unsafe
  {
  }

  lemma DetachKeepsLife(s: State, step: Step, d: Id)
    requires (step.Detach? || step.SelfDetach?) && Enabled(s, step) && QueueInv(s) && d == step.d
    requires d in s.creators && LifeInv(s, d)
    ensures var s' := Apply(s, step);
      && s'.status == Status.Running && d in s'.creators && (d in s'.unsafe || LifeInv(s', d))
      && s'.unsafe == s.unsafe + if step.SelfDetach? && !s.creators[d].Returned? then {d} else {}
  {
  }

  lemma StepKeepsLife(s: State, step: Step)
    requires Inv(s) && Enabled(s, step)
    ensures var s' := Apply(s, step);
      && (forall e :: e in s'.creators && e !in s'.unsafe ==> LifeInv(s', e))
      && (s'.unsafe == {} ==> s'.status == Status.Running)
  {
    var s' := Apply(s, step);
    var d := Subject(s, step);
    forall e | e in s'.creators && e !in s'.unsafe ensures LifeInv(s', e) {
      if e == d {
        SubjectKeepsLife(s, step, d);
      } else {
        OthersSame(s, step, e);
        LifeFrame(s, s', e);
      }
    }
    if s'.unsafe == {} {
      SubjectKeepsLife(s, step, d);
    }
  }

  lemma SubjectKeepsLife(s: State, step: Step, d: Id)
    requires QueueInv(s) && DeletedInv(s) && Enabled(s, step) && (step.Pop? ==> s.queue != []) && d == Subject(s, step)
    requires d !in Apply(s, step).unsafe && (d in s.creators && d !in s.unsafe ==> LifeInv(s, d))
    ensures Apply(s, step).status == Status.Running && d in Apply(s, step).creators && LifeInv(Apply(s, step), d)
  {
    if step.Create? || step.Spawn? || step.SpawnFails? || step.CreatorReturns? || step.DetachByAttr? {
      CreationKeepsLife(s, step, d);
    } else if step.Detach? || step.SelfDetach? {
      DetachKeepsLife(s, step, d);
    } else if step.JoinCall? || step.JoinSees? || step.JoinReads? || step.JoinUpdates? {
      JoinKeepsLife(s, step, d);
    } else {
      WorkKeepsLife(s, step, d);
    }
  }

  lemma StepKeepsDeleted(s: State, step: Step)
    requires QueueInv(s) && DeletedInv(s) && Enabled(s, step)
    ensures DeletedInv(Apply(s, step))
  {
    match step
    case SpawnFails(d) => FailureKeepsDeleted(s, d);
    case Release(d) => ReleaseKeepsDeleted(s, d);
    case Create(_, _) =>
    case _ =>
      DescsKept(s, step);
      DeletedFrame(s, Apply(s, step));
  }

  lemma FailureKeepsDeleted(s: State, d: Id)
    requires DeletedInv(s) && Enabled(s, SpawnFails(d))
    ensures DeletedInv(Apply(s, SpawnFails(d)))
  {
    if d in s.descs {
      DeleteFrame(s, Apply(s, SpawnFails(d)), d);
    }
  }

  lemma ReleaseKeepsDeleted(s: State, d: Id)
    requires DeletedInv(s) && Enabled(s, Release(d))
    ensures DeletedInv(Apply(s, Release(d)))
  {
    if d in s.descs {
      DeleteFrame(s, Apply(s, Release(d)), d);
    }
  }

  lemma DeleteFrame(s: State, s': State, d: Id)
    requires DeletedInv(s) && d in s.descs
    requires s'.descs == s.descs - {d} && s'.deleted == s.deleted + [d] && s'.creators.Keys == s.creators.Keys
    requires s'.joiners == s.joiners && s'.exits == s.exits && s'.unsafe <= s.unsafe + {d}
    ensures DeletedInv(s')
  {
  }

  /** The step neither makes nor deletes a descriptor. */
  lemma DescsKept(s: State, step: Step)
    requires QueueInv(s) && DeletedInv(s) && Enabled(s, step) && !step.Create? && !step.SpawnFails? && !step.Release?
    ensures var s' := Apply(s, step);
      && s'.descs.Keys == s.descs.Keys && s'.creators.Keys == s.creators.Keys && s'.deleted == s.deleted
      && (forall e :: e in s'.joiners || e in s'.exits || e in s'.unsafe ==> e in s.creators)
  {
    if !ChangesQueue(step) {
      QueueUnchanged(s, step);
      JoinersKnown(s, step);
      DescKeysKept(s, step);
    }
  }

  lemma DescKeysKept(s: State, step: Step)
    requires Enabled(s, step) && !ChangesQueue(step) && !step.Release?
    ensures Apply(s, step).descs.Keys == s.descs.Keys && Apply(s, step).deleted == s.deleted
  {
    if step.DetachByAttr? || step.Detach? || step.SelfDetach? {
      DetachKeepsKeys(s, step);
    }
  }

  lemma DetachKeepsKeys(s: State, step: Step)
    requires Enabled(s, step) && (step.DetachByAttr? || step.Detach? || step.SelfDetach?)
    ensures Apply(s, step).descs.Keys == s.descs.Keys && Apply(s, step).deleted == s.deleted
  {
  }

  lemma JoinersKnown(s: State, step: Step)
    requires QueueInv(s) && Enabled(s, step) && !ChangesQueue(step)
    requires forall d :: d in s.joiners || d in s.exits || d in s.unsafe ==> d in s.creators
    ensures forall e :: e in Apply(s, step).joiners || e in Apply(s, step).exits || e in Apply(s, step).unsafe ==>
      e in s.creators
  {
  }

  lemma DeletedFrame(s: State, s': State)
    requires DeletedInv(s) && s'.deleted == s.deleted
    requires s'.descs.Keys == s.descs.Keys && s'.creators.Keys == s.creators.Keys
    requires forall e :: e in s'.joiners || e in s'.exits || e in s'.unsafe ==> e in s.creators
    ensures DeletedInv(s')
  {
  }

  lemma StepKeepsInv(s: State, step: Step)
    requires Inv(s) && Enabled(s, step)
    ensures Inv(Apply(s, step))
  {
    StepKeepsQueueInv(s, step);
    StepKeepsCountInv(s, step);
    StepKeepsDeleted(s, step);
    StepKeepsLife(s, step);
  }

  lemma {:induction false} ReachableInv(s: State, steps: seq<Step>)
    requires Init(s) && Exec(s, steps).Some?
    ensures Inv(Exec(s, steps).value)
  {
    if steps == [] {
      assert CallingIds(s.creators) == {};
    } else {
      ReachableInv(s, steps[..|steps| - 1]);
      StepKeepsInv(Exec(s, steps[..|steps| - 1]).value, steps[|steps| - 1]);
    }
  }

  // ---------- theorems over every run ----------

  /**
   No host thread ever finds the queue empty, whichever creations fail: the queue has an entry for
   each thread that has not entered yet, each creation in progress, and each mismatched failure.
   */
  lemma QueueNeverRunsDry(s: State, steps: seq<Step>, s': State)
    requires Init(s) && Exec(s, steps) == Some(s')
    ensures s'.status != Aborted
    ensures |s'.queue| == s'.spawned + |CallingIds(s'.creators)| + s'.mismatches
  {
    ReachableInv(s, steps);
  }

  /** Without rule breaking no deleted descriptor is used and no assertion fails. */
  lemma NoUseAfterDelete(s: State, steps: seq<Step>, s': State)
    requires Init(s) && Exec(s, steps) == Some(s') && s'.unsafe == {}
    ensures s'.status == Status.Running
  {
    ReachableInv(s, steps);
  }

  /** A descriptor exists while _thread_create, pthread_create or pthread_join needs it, and its thread runs. */
  lemma LiveWhileNeeded(s: State, steps: seq<Step>, s': State, d: Id)
    requires Init(s) && Exec(s, steps) == Some(s') && d in s'.creators && d !in s'.unsafe
    requires s'.creators[d].Calling? || s'.creators[d].Awaiting? || s'.creators[d].Detaching?
          || (d in s'.joiners && !s'.joiners[d].Finished?) || (d in s'.workers && s'.workers[d] != Released)
    ensures d in s'.descs
  {
    ReachableInv(s, steps);
    assert LifeInv(s', d);
  }

  /**
   No descriptor is deleted twice.  It is deleted when its creation failed or its thread is released,
   and the latter only after it was detached or a join took its value.
   */
  lemma DeletedOnce(s: State, steps: seq<Step>, s': State, d: Id)
    requires Init(s) && Exec(s, steps) == Some(s') && d in s'.creators && d !in s'.unsafe
    ensures Distinct(s'.deleted)
    ensures d in s'.deleted <==> s'.creators[d] == Failed || WorkerIs(s', d, Released)
    ensures d in s'.deleted <==> d !in s'.descs
    ensures WorkerIs(s', d, Released) ==>
      CreatorIs(s', d, Returned(false)) || (d in s'.joiners && s'.joiners[d].Finished?)
  {
    ReachableInv(s, steps);
    assert LifeInv(s', d);
  }

  // ---------- the order of states ----------

  function Rank(state: ThreadState): nat {
    match state
    case Queued => 0
    case Running => 1
    case Done => 2
    case Joined => 3
  }

  lemma UnsafeStays(s: State, step: Step)
    requires Enabled(s, step)
    ensures s.unsafe <= Apply(s, step).unsafe
  {
  }

  lemma StateMoves(s: State, step: Step, d: Id)
    requires Inv(s) && Enabled(s, step) && d in s.descs && d in Apply(s, step).descs && d !in s.unsafe
    ensures var was, now := s.descs[d].state, Apply(s, step).descs[d].state;
      now == was || Rank(now) == Rank(was) + 1
  {
    assert LifeInv(s, d);
    if d != Subject(s, step) {
      OthersSame(s, step, d);
    } else {
      OwnStateMoves(s, step, d);
    }
  }

  lemma OwnStateMoves(s: State, step: Step, d: Id)
    requires d in s.creators && LifeInv(s, d) && Enabled(s, step) && d in s.descs && d in Apply(s, step).descs
    requires !step.Pop? ==> step.d == d
    ensures var was, now := s.descs[d].state, Apply(s, step).descs[d].state;
      now == was || Rank(now) == Rank(was) + 1
  {
  }

  lemma DeletedStays(s: State, step: Step, d: Id)
    requires QueueInv(s) && Enabled(s, step) && d in s.creators && d !in s.descs
    ensures d !in Apply(s, step).descs
  {
  }

  /** The state of a descriptor only moves from Queued over Running and Done to Joined. */
  lemma {:induction false} StateOnlyAdvances(s: State, before: seq<Step>, m: State, later: seq<Step>, s': State, d: Id)
    requires Init(s) && Exec(s, before) == Some(m) && Exec(m, later) == Some(s')
    requires d in m.descs && d !in s'.unsafe
    ensures Inv(s') && d in s'.creators && m.unsafe <= s'.unsafe
    ensures d in s'.descs ==> Rank(m.descs[d].state) <= Rank(s'.descs[d].state)
  {
    ReachableInv(s, before);
    if later != [] {
      var p, step := Exec(m, later[..|later| - 1]).value, later[|later| - 1];
      UnsafeStays(p, step);
      StateOnlyAdvances(s, before, m, later[..|later| - 1], p, d);
      StepKeepsInv(p, step);
      if d in p.descs {
        if d in s'.descs {
          StateMoves(p, step, d);
        }
      } else {
        DeletedStays(p, step, d);
      }
      CreatorsStay(p, step, d);
    }
  }

  lemma CreatorsStay(s: State, step: Step, d: Id)
    requires Enabled(s, step) && d in s.creators
    ensures d in Apply(s, step).creators
  {
  }

  // ---------- the value of a join ----------

  /** exits has what the thread's only Exit step supplied. */
  lemma {:induction false} ExitsAreSteps(s: State, steps: seq<Step>, d: Id)
    requires Init(s) && Exec(s, steps).Some? && d !in Exec(s, steps).value.unsafe
    ensures var s' := Exec(s, steps).value;
      && (d in s'.exits ==> Exit(d, s'.exits[d]) in steps)
      && (forall v :: Exit(d, v) in steps ==> d in s'.exits && s'.exits[d] == v)
  {
    if steps != [] {
      var before, step := steps[..|steps| - 1], steps[|steps| - 1];
      var m := Exec(s, before).value;
      UnsafeStays(m, step);
      ExitsAreSteps(s, before, d);
      ReachableInv(s, before);
      assert steps == before + [step];
      ExitStep(m, step, d);
    }
  }

  lemma ExitStep(s: State, step: Step, d: Id)
    requires Inv(s) && Enabled(s, step) && d !in s.unsafe
    ensures var s' := Apply(s, step);
      if step.Exit? && step.d == d then d !in s.exits && d in s'.exits && s'.exits[d] == step.value
      else (d in s'.exits <==> d in s.exits) && (d in s.exits ==> s'.exits[d] == s.exits[d])
  {
    if step.Exit? && step.d == d {
      assert LifeInv(s, d);
    }
  }

  /** pthread_join yields the value that the thread returned or passed to pthread_exit, its only one. */
  lemma JoinYieldsExitValue(s: State, steps: seq<Step>, s': State, d: Id)
    requires Init(s) && Exec(s, steps) == Some(s') && d in s'.joiners && s'.joiners[d].Finished? && d !in s'.unsafe
    ensures Exit(d, s'.joiners[d].value) in steps
    ensures forall v :: Exit(d, v) in steps ==> v == s'.joiners[d].value
  {
    ReachableInv(s, steps);
    ExitsAreSteps(s, steps, d);
    assert LifeInv(s', d);
  }

  // ---------- detach state and order of creation ----------

  /** Where a creation with the given detach state can be, if its thread was detached later or not. */
  predicate FitsAttr(c: Creator, detached: bool, detachedLater: bool) {
    match c
    case Calling(a) => a == detached && !detachedLater
    case Awaiting(a) => a == detached && !detachedLater
    case Detaching => detached && !detachedLater
    case Returned(joinable) => joinable <==> !detached && !detachedLater
    case Failed => !detachedLater
  }

  predicate DetachedLater(steps: seq<Step>, d: Id) {
    Detach(d) in steps || SelfDetach(d) in steps
  }

  lemma CreatorStep(s: State, step: Step, d: Id, detached: bool, later: bool)
    requires QueueInv(s) && Enabled(s, step) && d in s.creators && LifeInv(s, d) && d !in Apply(s, step).unsafe
    requires FitsAttr(s.creators[d], detached, later)
    ensures d in Apply(s, step).creators
    ensures FitsAttr(Apply(s, step).creators[d], detached, later || step == Detach(d) || step == SelfDetach(d))
  {
    CreatorsStay(s, step, d);
    if step.Pop? || step.d != d {
      CreatorOfOther(s, step, d);
    } else if step.Detach? || step.SelfDetach? {
      DetachStep(s, step, d);
    } else {
      OwnCreatorStep(s, step, d, detached, later);
    }
  }

  lemma OwnCreatorStep(s: State, step: Step, d: Id, detached: bool, later: bool)
    requires QueueInv(s) && Enabled(s, step) && d in s.creators && LifeInv(s, d) && d !in Apply(s, step).unsafe
    requires !step.Pop? && step.d == d && !step.Detach? && !step.SelfDetach?
    requires FitsAttr(s.creators[d], detached, later)
    ensures d in Apply(s, step).creators && FitsAttr(Apply(s, step).creators[d], detached, later)
  {
  }

  /** A thread that is not unsafe detaches itself, or is detached, only while it is joinable. */
  lemma DetachStep(s: State, step: Step, d: Id)
    requires Enabled(s, step) && (step == Detach(d) || step == SelfDetach(d)) && d !in Apply(s, step).unsafe
    requires d in s.creators && LifeInv(s, d)
    ensures d in Apply(s, step).creators
    ensures s.creators[d] == Returned(true) && Apply(s, step).creators[d] == Returned(false)
  {
  }

  lemma CreatorOfOther(s: State, step: Step, d: Id)
    requires Enabled(s, step) && d in s.creators && (step.Pop? || step.d != d)
    ensures d in Apply(s, step).creators && Apply(s, step).creators[d] == s.creators[d]
  {
  }

  lemma {:induction false} CreatorFitsAttr(s: State, steps: seq<Step>, d: Id, detached: bool)
    requires Init(s) && Exec(s, steps).Some? && Create(d, detached) in steps && d !in Exec(s, steps).value.unsafe
    ensures d in Exec(s, steps).value.creators
    ensures FitsAttr(Exec(s, steps).value.creators[d], detached, DetachedLater(steps, d))
  {
    var before, step := steps[..|steps| - 1], steps[|steps| - 1];
    var m := Exec(s, before).value;
    assert steps == before + [step];
    UnsafeStays(m, step);
    if Create(d, detached) in before {
      CreatorFitsAttr(s, before, d, detached);
      ReachableInv(s, before);
      CreatorStep(m, step, d, detached, DetachedLater(before, d));
    } else {
      NotDetachedYet(s, before, d);
      CreateFits(m, d, detached);
    }
  }

  lemma CreateFits(s: State, d: Id, detached: bool)
    requires Enabled(s, Create(d, detached))
    ensures d in Apply(s, Create(d, detached)).creators
    ensures FitsAttr(Apply(s, Create(d, detached)).creators[d], detached, false)
  {
  }

  /** Nobody detaches a thread that does not exist. */
  lemma {:induction false} NotDetachedYet(s: State, steps: seq<Step>, d: Id)
    requires Init(s) && Exec(s, steps).Some? && d !in Exec(s, steps).value.creators
    ensures !DetachedLater(steps, d)
  {
    if steps != [] {
      var before, step := steps[..|steps| - 1], steps[|steps| - 1];
      if d in Exec(s, before).value.creators {
        CreatorsStay(Exec(s, before).value, step, d);
      }
      NotDetachedYet(s, before, d);
      assert steps == before + [step];
    }
  }

  /**
   Once pthread_create has returned, its thread is detached exactly if the attributes asked for it or
   somebody detached it; otherwise it is joinable.
   */
  lemma AttributeRespected(s: State, steps: seq<Step>, s': State, d: Id, detached: bool)
    requires Init(s) && Exec(s, steps) == Some(s') && Create(d, detached) in steps && d !in s'.unsafe
    requires d in s'.creators && s'.creators[d].Returned?
    ensures detached || DetachedLater(steps, d) <==> s'.creators[d] == Returned(false)
    ensures d in s'.descs ==> (s'.descs[d].detached <==> detached || DetachedLater(steps, d))
  {
    CreatorFitsAttr(s, steps, d, detached);
    ReachableInv(s, steps);
    assert LifeInv(s', d);
  }

  /** One more than the position of the creation of the thread in the run, or 0. */
  function CreatedAt(steps: seq<Step>, d: Id): (n: nat)
    ensures n <= |steps|
  {
    if steps == [] then 0
    else if steps[|steps| - 1].Create? && steps[|steps| - 1].d == d then |steps|
    else CreatedAt(steps[..|steps| - 1], d)
  }

  predicate InOrder(q: seq<Id>, steps: seq<Step>) {
    forall i: nat, j: nat :: i < j < |q| ==> CreatedAt(steps, q[i]) < CreatedAt(steps, q[j])
  }

  lemma RemovingKeepsOrder(q: seq<Id>, steps: seq<Step>, d: Id)
    requires InOrder(q, steps) && Distinct(q)
    ensures InOrder(Without(q, d), steps)
  {
    if d in q {
      var i: nat :| i < |q| && q[i] == d;
      WithoutKeepsOrder(q, d, i);
    }
  }

  /** The queue holds the threads in the order of their creation. */
  lemma {:induction false} QueueInCreationOrder(s: State, steps: seq<Step>)
    requires Init(s) && Exec(s, steps).Some?
    ensures InOrder(Exec(s, steps).value.queue, steps)
  {
    if steps != [] {
      var before, step := steps[..|steps| - 1], steps[|steps| - 1];
      var m := Exec(s, before).value;
      QueueInCreationOrder(s, before);
      ReachableInv(s, before);
      StepMovesQueue(m, step);
      MovesKeepOrder(m.queue, Apply(m, step).queue, before, step);
      assert steps == before + [step];
    }
  }

  /** A step appends a new thread to the queue, takes one out, or leaves the queue alone. */
  predicate QueueMoves(was: seq<Id>, now: seq<Id>, step: Step) {
    || now == was
    || (step.Create? && now == was + [step.d])
    || (step.SpawnFails? && now == Without(was, step.d))
    || (was != [] && now == was[1..])
  }

  lemma StepMovesQueue(s: State, step: Step)
    requires Enabled(s, step)
    ensures QueueMoves(s.queue, Apply(s, step).queue, step)
  {
    if !ChangesQueue(step) {
      QueueUnchanged(s, step);
    }
  }

  lemma MovesKeepOrder(was: seq<Id>, now: seq<Id>, before: seq<Step>, step: Step)
    requires InOrder(was, before) && Distinct(was) && QueueMoves(was, now, step)
    requires step.Create? ==> step.d !in was
    ensures InOrder(now, before + [step])
  {
    var steps := before + [step];
    assert steps[..|steps| - 1] == before;
    assert forall d :: d in was ==> CreatedAt(steps, d) == CreatedAt(before, d);
    assert InOrder(was, steps);
    if step.SpawnFails? {
      RemovingKeepsOrder(was, steps, step.d);
    }
  }

  /** A host thread that enters always takes the oldest thread that nobody has started yet. */
  lemma OldestStartsFirst(s: State, steps: seq<Step>, m: State)
    requires Init(s) && Exec(s, steps) == Some(m) && Enabled(m, Pop)
    ensures m.queue != [] && WorkerIs(Apply(m, Pop), m.queue[0], Popped)
    ensures forall d :: d in m.queue[1..] ==> CreatedAt(steps, m.queue[0]) < CreatedAt(steps, d)
  {
    ReachableInv(s, steps);
    QueueInCreationOrder(s, steps);
  }

  // ---------- what breaking the rules does ----------

  /** No creation fails and no thread detaches itself. */
  predicate Quiet(steps: seq<Step>) {
    forall i: nat :: i < |steps| ==> !steps[i].SpawnFails? && !steps[i].SelfDetach?
  }

  lemma QuietStep(s: State, step: Step)
    requires Enabled(s, step) && !step.SpawnFails? && !step.SelfDetach?
    ensures Apply(s, step).unsafe == s.unsafe
  {
  }

  lemma {:induction false} QuietStaysSafe(m: State, later: seq<Step>)
    requires Inv(m) && m.unsafe == {} && Quiet(later) && Exec(m, later).Some?
    ensures var s' := Exec(m, later).value; Inv(s') && s'.unsafe == {} && s'.status == Status.Running
  {
    if later != [] {
      QuietStaysSafe(m, later[..|later| - 1]);
      StepKeepsInv(Exec(m, later[..|later| - 1]).value, later[|later| - 1]);
      QuietStep(Exec(m, later[..|later| - 1]).value, later[|later| - 1]);
    }
  }

  /** Some quiet continuation uses a deleted descriptor or fails an assertion. */
  ghost predicate CanFault(m: State) {
    exists later :: Quiet(later) && Exec(m, later).Some? && Exec(m, later).value.status == Faulted
  }

  lemma ExecThen(s: State, steps: seq<Step>, step: Step)
    requires Exec(s, steps).Some? && Enabled(Exec(s, steps).value, step)
    ensures Exec(s, steps + [step]) == Some(Apply(Exec(s, steps).value, step))
  {
    assert (steps + [step])[..|steps + [step]| - 1] == steps;
  }

  lemma SafeCannotFault(m: State)
    requires Inv(m) && m.unsafe == {}
    ensures !CanFault(m)
  {
    forall later | Quiet(later) && Exec(m, later).Some? ensures Exec(m, later).value.status != Faulted {
      QuietStaysSafe(m, later);
    }
  }

  /** A failed creation is harmless exactly if no thread has popped its descriptor in the meantime. */
  lemma FailedCreationIsSafeIffQueued(s: State, steps: seq<Step>, m: State, d: Id)
    requires Init(s) && Exec(s, steps) == Some(m) && m.unsafe == {} && Enabled(m, SpawnFails(d))
    ensures d in m.queue <==> !CanFault(Apply(m, SpawnFails(d)))
  {
    ReachableInv(s, steps);
    StepKeepsInv(m, SpawnFails(d));
    var m' := Apply(m, SpawnFails(d));
    if d in m.queue {
      SafeCannotFault(m');
    } else {
      assert LifeInv(m, d);
      DeadWorkerFaults(m', d);
    }
  }

  /** Whatever the thread does next uses its descriptor. */
  lemma DeadWorkerFaults(m: State, d: Id)
    requires m.status == Status.Running && d in m.workers && m.workers[d] != Released && d !in m.descs
    ensures CanFault(m)
  {
    var step := match m.workers[d]
      case Popped => SetRunning(d)
      case Executing => Exit(d, 0)
      case Finishing => SetDone(d)
      case _ => Release(d);
    ExecOne(m, step);
    assert Quiet([step]);
  }

  /** Detaching itself is harmless exactly if the creation of the thread has returned. */
  lemma SelfDetachIsSafeIffReturned(s: State, steps: seq<Step>, m: State, d: Id)
    requires Init(s) && Exec(s, steps) == Some(m) && m.unsafe == {} && Enabled(m, SelfDetach(d))
    ensures m.creators[d].Returned? <==> !CanFault(Apply(m, SelfDetach(d)))
  {
    ReachableInv(s, steps);
    StepKeepsInv(m, SelfDetach(d));
    assert LifeInv(m, d);
    var m' := Apply(m, SelfDetach(d));
    if m.creators[d].Returned? {
      SafeCannotFault(m');
    } else {
      var later := EarlyReleaseFaults(m', d);
    }
  }

  lemma ExecOne(s: State, step: Step)
    requires Enabled(s, step)
    ensures Exec(s, [step]) == Some(Apply(s, step))
  {
    ExecThen(s, [], step);
    assert [] + [step] == [step];
  }

  lemma {:induction false} ExecFrom(s: State, step: Step, rest: seq<Step>)
    requires Enabled(s, step) && Exec(Apply(s, step), rest).Some?
    ensures Exec(s, [step] + rest) == Exec(Apply(s, step), rest)
  {
    if rest == [] {
      ExecOne(s, step);
      assert [step] + rest == [step];
    } else {
      ExecFrom(s, step, rest[..|rest| - 1]);
      assert ([step] + rest)[..|[step] + rest| - 1] == [step] + rest[..|rest| - 1];
    }
  }

  function StepsToRelease(w: Worker): nat {
    match w
    case Popped => 4
    case Executing => 3
    case Finishing => 2
    case AwaitingJoin => 1
    case Released => 0
  }

  /** The thread ends and deletes its descriptor; then its creator looks at the descriptor's state. */
  lemma EarlyReleaseFaults(m: State, d: Id) returns (later: seq<Step>)
    requires m.status == Status.Running && d in m.workers && m.workers[d] != Popped
    requires if m.workers[d] == Released then d !in m.descs else d in m.descs && m.descs[d].detached
    requires d in m.creators && (m.creators[d].Calling? || m.creators[d].Awaiting?)
    ensures Quiet(later) && Exec(m, later).Some? && Exec(m, later).value.status == Faulted
    decreases StepsToRelease(m.workers[d])
  {
    if m.workers[d] == Released {
      later := DeadAwaitFaults(m, d);
    } else {
      var step := match m.workers[d]
        case Executing => Exit(d, 0)
        case Finishing => SetDone(d)
        case _ => Release(d);
      var rest := EarlyReleaseFaults(Apply(m, step), d);
      ExecFrom(m, step, rest);
      later := [step] + rest;
    }
  }

  lemma DeadAwaitFaults(m: State, d: Id) returns (later: seq<Step>)
    requires m.status == Status.Running && d !in m.descs
    requires d in m.creators && (m.creators[d].Calling? || m.creators[d].Awaiting?)
    ensures Quiet(later) && Exec(m, later).Some? && Exec(m, later).value.status == Faulted
    decreases m.creators[d].Calling?
  {
    if m.creators[d].Calling? {
      var rest := DeadAwaitFaults(Apply(m, Spawn(d)), d);
      ExecFrom(m, Spawn(d), rest);
      later := [Spawn(d)] + rest;
    } else {
      ExecOne(m, CreatorReturns(d));
      later := [CreatorReturns(d)];
    }
  }
}
