/**
 What the sockets of Sockets.dfy always keep and can always still do: calls in progress go on, a close
 takes away exactly its socket, and a blocked send of any size completes while its peer reads.
 */
module SocketProgress {
  import opened Common
  import opened RingBuffer
  import opened Sockets
  import opened SocketAccounting
  import opened SocketStreams

  // ---------- calls in progress ----------

  /** The call is the same except for its signal. */
  predicate SameUpToSignal(was: Call, now: Call) {
    now == was || now == was.(signalled := true)
  }

  predicate OthersGoOn(was: map<Tid, Call>, now: map<Tid, Call>, t: Tid) {
    forall u :: u in was && u != t ==> u in now && SameUpToSignal(was[u], now[u])
  }

  lemma CallStepOthers(s: State, step: Step)
    requires Inv(s) && Enabled(s, step) && IsCallStep(step)
    ensures OthersGoOn(s.calls, Apply(s, step).calls, step.t)
  {
    match step
    case SendCall(_, x, _) => ConnOfSock(s, x);
    case SendRound(t) => SendRoundOthers(s, t);
    case RecvRound(t) => RecvRoundOthers(s, t);
    case _ =>
  }

  lemma SendRoundOthers(s: State, t: Tid)
    requires Enabled(s, SendRound(t))
    ensures OthersGoOn(s.calls, Apply(s, SendRound(t)).calls, t)
  {
  }

  lemma RecvRoundOthers(s: State, t: Tid)
    requires Enabled(s, RecvRound(t))
    ensures OthersGoOn(s.calls, Apply(s, RecvRound(t)).calls, t)
  {
  }

  /**
   A call in progress ends only by a round of its own, and sleeps until a wake-up of its own; nothing else
   that happens changes what it will do.
   */
  lemma CallsGoOn(s: State, steps: seq<Step>, m: State, step: Step, t: Tid)
    requires Init(s) && Exec(s, steps) == Some(m) && Enabled(m, step) && t in m.calls
    requires step != SendRound(t) && step != RecvRound(t)
    ensures var m' := Apply(m, step);
      && t in m'.calls
      && if step == WakeUp(t) then m'.calls[t] == m.calls[t].(asleep := false, signalled := false)
         else SameUpToSignal(m.calls[t], m'.calls[t])
  {
    ReachableInv(s, steps);
    if IsCallStep(step) {
      CallStepOthers(m, step);
    } else if step.Close? {
      CloseCalls(m, step.sock);
    } else {
      QuietCalls(m, step);
    }
  }

  /** A close that does not fault takes away exactly its socket, and the listener of the port if it is bound to one. */
  lemma CloseOutcome(s: State, steps: seq<Step>, m: State, x: SockId)
    requires Init(s) && Exec(s, steps) == Some(m) && Enabled(m, Close(x))
    ensures var m' := Apply(m, Close(x));
      m'.status == Running ==>
        && m'.socks == m.socks - {x}
        && m'.ports == (if m.socks[x].Bound? then m.ports - {m.socks[x].port} else m.ports)
        && m'.freed == m.freed + (
          match m.socks[x]
          case Plain => []
          case Bound(port) => if port in m.ports then m.ports[port].backlog else []
          case Connected(c, _) => if c in m'.conns then [] else [c])
  {
    ReachableInv(s, steps);
    match m.socks[x]
    case Plain =>
    case Bound(_) => CloseBoundEffect(m, x);
    case Connected(_, _) => CloseConnectedEffect(m, x);
  }

  // ---------- runs ----------

  /** No wake-up in the run is spurious. */
  predicate WakesSignalled(m: State, steps: seq<Step>) {
    steps != [] ==>
      var before, step := steps[..|steps| - 1], steps[|steps| - 1];
      && WakesSignalled(m, before)
      && (step.WakeUp? ==>
        Exec(m, before).Some? && step.t in Exec(m, before).value.calls && Exec(m, before).value.calls[step.t].signalled)
  }

  lemma {:induction false} RunAppend(m: State, a: seq<Step>, b: seq<Step>)
    requires Exec(m, a).Some? && Exec(Exec(m, a).value, b).Some?
    requires WakesSignalled(m, a) && WakesSignalled(Exec(m, a).value, b)
    ensures Exec(m, a + b) == Exec(Exec(m, a).value, b) && WakesSignalled(m, a + b)
  {
    if b == [] {
      assert a + b == a;
    } else {
      RunAppend(m, a, b[..|b| - 1]);
      assert (a + b)[..|a + b| - 1] == a + b[..|b| - 1];
    }
  }

  lemma RunOne(m: State, step: Step)
    requires Enabled(m, step) && (step.WakeUp? ==> m.calls[step.t].signalled)
    ensures Exec(m, [step]) == Some(Apply(m, step)) && WakesSignalled(m, [step])
  {
    assert [step][..0] == [];
  }

  ghost predicate Reachable(m: State) {
    exists s, run :: Init(s) && Exec(s, run) == Some(m)
  }

  lemma StepReachable(m: State, step: Step)
    requires Reachable(m) && Enabled(m, step)
    ensures Reachable(Apply(m, step))
  {
    var s, run :| Init(s) && Exec(s, run) == Some(m);
    ExecThen(s, run, step);
  }

  /** A thread that can receive on an open socket of a side finds a connection with a buffer within its capacity. */
  lemma ReaderFacts(m: State, u: Tid, y: SockId, c: ConnId, side: Side)
    requires CanRead(m, u, y, c, side)
    ensures c in m.conns && |m.conns[c].Get(side).stored| <= CAPACITY && 0 < m.conns[c].Get(side).refcount
    ensures m.conns[c].Get(side).received + m.conns[c].Get(side).stored == m.conns[c].Get(side).accepted
  {
    var s, run :| Init(s) && Exec(s, run) == Some(m);
    ReachableStreams(s, run);
    ConnOfSock(m, y);
    assert ConnInv(m, c, m.conns[c]);
    HalfOf(m, c, side);
  }

  lemma SenderFacts(m: State, t: Tid)
    requires Reachable(m) && t in m.calls && m.calls[t].Sending?
    ensures m.calls[t].written <= |m.calls[t].data|
  {
    var s, run :| Init(s) && Exec(s, run) == Some(m);
    ReachableInv(s, run);
    assert CallInv(m, m.calls[t]);
  }

  /** Nobody sleeps for space in an empty buffer, unless the wake-up is already on its way. */
  lemma NobodyWaitsForSpace(m: State, c: ConnId, side: Side)
    requires Reachable(m) && c in m.conns && m.conns[c].Get(side).stored == []
    ensures forall t :: t in m.calls && SendsTo(m.calls[t], c, side) && m.calls[t].asleep ==> m.calls[t].signalled
  {
    var s, run :| Init(s) && Exec(s, run) == Some(m);
    ReachableStreams(s, run);
    forall t | t in m.calls && SendsTo(m.calls[t], c, side) && m.calls[t].asleep ensures m.calls[t].signalled {
      assert SleepInv(m, m.calls[t]);
    }
  }

  // ---------- the reader ----------

  /** Thread u can receive on socket y of one side of a connection. */
  ghost predicate CanRead(m: State, u: Tid, y: SockId, c: ConnId, side: Side) {
    && Reachable(m) && m.status == Running
    && u !in m.calls && y in m.socks && m.socks[y] == Connected(c, side)
  }

  /** m' is m after somebody emptied the buffer of a half. */
  ghost predicate Emptied(m: State, m': State, c: ConnId, side: Side) {
    && c in m.conns && c in m'.conns && m'.socks == m.socks
    && m'.conns[c].Get(side).stored == [] && m'.conns[c].Get(side).accepted == m.conns[c].Get(side).accepted
    && m'.calls.Keys == m.calls.Keys
    && forall t :: t in m.calls ==>
      && SameUpToSignal(m.calls[t], m'.calls[t])
      && (SendsTo(m.calls[t], c, side) && m.calls[t].asleep ==> m'.calls[t].signalled)
  }

  predicate ReaderSteps(steps: seq<Step>, u: Tid, y: SockId) {
    steps == [] || steps == [RecvCall(u, y, CAPACITY, true), RecvRound(u)]
  }

  /** Reading at most one buffer's length empties the buffer and wakes whoever waits for its space. */
  lemma ReaderEmpties(m: State, u: Tid, y: SockId, c: ConnId, side: Side) returns (steps: seq<Step>)
    requires CanRead(m, u, y, c, side)
    ensures ReaderSteps(steps, u, y) && Exec(m, steps).Some? && WakesSignalled(m, steps)
    ensures var m' := Exec(m, steps).value; CanRead(m', u, y, c, side) && Emptied(m, m', c, side)
  {
    ReaderFacts(m, u, y, c, side);
    if m.conns[c].Get(side).stored == [] {
      steps := [];
      NobodyWaitsForSpace(m, c, side);
    } else {
      ReadRound(m, u, y, c, side);
      ReadRuns(m, u, y);
      steps := [RecvCall(u, y, CAPACITY, true)] + [RecvRound(u)];
    }
  }

  lemma ReadRuns(m: State, u: Tid, y: SockId)
    requires Reachable(m) && Enabled(m, RecvCall(u, y, CAPACITY, true))
    requires Enabled(Apply(m, RecvCall(u, y, CAPACITY, true)), RecvRound(u))
    ensures var steps := [RecvCall(u, y, CAPACITY, true)] + [RecvRound(u)];
      && Exec(m, steps) == Some(Apply(Apply(m, RecvCall(u, y, CAPACITY, true)), RecvRound(u)))
      && WakesSignalled(m, steps) && Reachable(Exec(m, steps).value)
  {
    var call, round := RecvCall(u, y, CAPACITY, true), RecvRound(u);
    RunOne(m, call);
    StepReachable(m, call);
    RunOne(Apply(m, call), round);
    StepReachable(Apply(m, call), round);
    RunAppend(m, [call], [round]);
  }

  lemma ReadRound(m: State, u: Tid, y: SockId, c: ConnId, side: Side)
    requires Enabled(m, RecvCall(u, y, CAPACITY, true)) && m.socks[y] == Connected(c, side) && c in m.conns
    requires 0 < |m.conns[c].Get(side).stored| <= CAPACITY
    ensures var m1 := Apply(m, RecvCall(u, y, CAPACITY, true));
      && Enabled(m1, RecvRound(u))
      && Apply(m1, RecvRound(u)).status == Running && Emptied(m, Apply(m1, RecvRound(u)), c, side)
  {
    var m1 := Apply(m, RecvCall(u, y, CAPACITY, true));
    RecvRoundEffect(m1, u);
    assert Receive(m1, u).Data?;
  }

  // ---------- the sender ----------

  /** Thread t sends to the side on which thread u can receive. */
  ghost predicate Sends(m: State, t: Tid, u: Tid, y: SockId, c: ConnId, side: Side) {
    CanRead(m, u, y, c, side) && t in m.calls && SendsTo(m.calls[t], c, side)
  }

  /** Everything the half has accepted, with what the call still has to write. */
  function Due(m: State, t: Tid, c: ConnId, side: Side): seq<byte>
    requires c in m.conns
  {
    m.conns[c].Get(side).accepted +
    if t in m.calls && SendsTo(m.calls[t], c, side) && m.calls[t].written <= |m.calls[t].data|
    then m.calls[t].data[m.calls[t].written..] else []
  }

  /** A signalled sender wakes up; one that is awake goes on. */
  lemma SenderWakes(m: State, t: Tid, u: Tid, y: SockId, c: ConnId, side: Side) returns (steps: seq<Step>)
    requires Sends(m, t, u, y, c, side) && c in m.conns && (m.calls[t].asleep ==> m.calls[t].signalled)
    ensures steps == [] || steps == [WakeUp(t)]
    ensures Exec(m, steps).Some? && WakesSignalled(m, steps)
    ensures var m' := Exec(m, steps).value;
      && Sends(m', t, u, y, c, side) && m'.conns == m.conns
      && !m'.calls[t].asleep && m'.calls[t].data == m.calls[t].data && m'.calls[t].written == m.calls[t].written
  {
    if m.calls[t].asleep {
      RunOne(m, WakeUp(t));
      StepReachable(m, WakeUp(t));
      steps := [WakeUp(t)];
    } else {
      steps := [];
    }
  }

  lemma RestAfterWrite(accepted: seq<byte>, data: seq<byte>, written: nat, n: nat)
    requires written + n <= |data|
    ensures accepted + data[written..][..n] + data[written + n..] == accepted + data[written..]
  {
    assert data[written..] == data[written..][..n] + data[written + n..];
  }

  lemma SendKeepsSocks(m: State, t: Tid)
    requires Enabled(m, SendRound(t)) && m.calls[t].conn in m.conns && m.calls[t].written <= |m.calls[t].data|
    requires |m.conns[m.calls[t].conn].Get(m.calls[t].side).stored| <= CAPACITY
    ensures Apply(m, SendRound(t)).status == Running && Apply(m, SendRound(t)).socks == m.socks
  {
  }

  /** A round into an empty buffer ends the call or writes a whole buffer's length. */
  lemma SenderWrites(m: State, t: Tid, u: Tid, y: SockId, c: ConnId, side: Side)
    requires Sends(m, t, u, y, c, side) && c in m.conns && !m.calls[t].asleep && m.conns[c].Get(side).stored == []
    ensures Enabled(m, SendRound(t)) && m.calls[t].written <= |m.calls[t].data|
    ensures var m' := Apply(m, SendRound(t));
      CanRead(m', u, y, c, side) && c in m'.conns && Wrote(m, m', t, c, side)
  {
    ReaderFacts(m, u, y, c, side);
    SenderFacts(m, t);
    StepReachable(m, SendRound(t));
    SendRoundEffect(m, t);
    SendKeepsSocks(m, t);
  }

  /** m' is m after t wrote what fits into the empty buffer of a half. */
  predicate Wrote(m: State, m': State, t: Tid, c: ConnId, side: Side)
    requires t in m.calls && SendsTo(m.calls[t], c, side) && m.calls[t].written <= |m.calls[t].data|
    requires c in m.conns && c in m'.conns
  {
    var data, written := m.calls[t].data, m.calls[t].written;
    var n := Min(|data| - written, CAPACITY);
    && m'.conns[c].Get(side).accepted == m.conns[c].Get(side).accepted + data[written..][..n]
    && (t in m'.calls <==> n < |data| - written)
    && (t in m'.calls ==>
      && SendsTo(m'.calls[t], c, side) && m'.calls[t].data == data && m'.calls[t].written == written + n)
  }

  lemma DueKept(m: State, m': State, t: Tid, c: ConnId, side: Side)
    requires t in m.calls && SendsTo(m.calls[t], c, side) && m.calls[t].written <= |m.calls[t].data|
    requires c in m.conns && c in m'.conns && Wrote(m, m', t, c, side)
    ensures Due(m', t, c, side) == Due(m, t, c, side)
    ensures t in m'.calls ==>
      m'.calls[t].written == m.calls[t].written + CAPACITY <= |m.calls[t].data| == |m'.calls[t].data|
  {
    var data, written := m.calls[t].data, m.calls[t].written;
    RestAfterWrite(m.conns[c].Get(side).accepted, data, written, Min(|data| - written, CAPACITY));
  }

  /** The reader empties the buffer and the sender fills it, until the sender is done. */
  lemma {:induction false} SendGoesOn(m: State, t: Tid, u: Tid, y: SockId, c: ConnId, side: Side)
    returns (steps: seq<Step>)
    requires Sends(m, t, u, y, c, side) && c in m.conns && m.calls[t].written <= |m.calls[t].data|
    ensures TransferSteps(steps, t, u, y) && Exec(m, steps).Some? && WakesSignalled(m, steps)
    ensures var m' := Exec(m, steps).value;
      && CanRead(m', u, y, c, side) && c in m'.conns && t !in m'.calls
      && m'.conns[c].Get(side).accepted == Due(m, t, c, side)
    decreases |m.calls[t].data| - m.calls[t].written
  {
    var read, m1 := ReadAndWake(m, t, u, y, c, side);
    SenderWrites(m1, t, u, y, c, side);
    var m2 := Apply(m1, SendRound(t));
    DueKept(m1, m2, t, c, side);
    RunOne(m1, SendRound(t));
    RunAppend(m, read, [SendRound(t)]);
    steps := read + [SendRound(t)];
    if t in m2.calls {
      var rest := SendGoesOn(m2, t, u, y, c, side);
      RunAppend(m, steps, rest);
      steps := steps + rest;
    }
  }

  /** The steps of the transfer are those of the sender and the reader. */
  predicate TransferSteps(steps: seq<Step>, t: Tid, u: Tid, y: SockId) {
    forall step :: step in steps ==>
      step == SendRound(t) || step == WakeUp(t) || step == RecvRound(u) || step == RecvCall(u, y, CAPACITY, true)
  }

  lemma ReadAndWake(m: State, t: Tid, u: Tid, y: SockId, c: ConnId, side: Side)
    returns (steps: seq<Step>, m': State)
    requires Sends(m, t, u, y, c, side) && c in m.conns
    ensures TransferSteps(steps, t, u, y) && Exec(m, steps) == Some(m') && WakesSignalled(m, steps)
    ensures Sends(m', t, u, y, c, side) && c in m'.conns && m'.conns[c].Get(side).stored == []
    ensures !m'.calls[t].asleep && Due(m', t, c, side) == Due(m, t, c, side)
    ensures m'.calls[t].data == m.calls[t].data && m'.calls[t].written == m.calls[t].written
  {
    var read := ReaderEmpties(m, u, y, c, side);
    var m1 := Exec(m, read).value;
    var wake := SenderWakes(m1, t, u, y, c, side);
    RunAppend(m, read, wake);
    steps, m' := read + wake, Exec(m1, wake).value;
  }

  /**
   A blocked send of any size completes while somebody reads on the other side, and the reader gets all
   that was accepted before followed by the rest of its data.  No wake-up in this run is spurious.
   */
  lemma SendCompletes(s: State, run: seq<Step>, m: State, t: Tid, u: Tid, y: SockId) returns (steps: seq<Step>)
    requires Init(s) && Exec(s, run) == Some(m) && m.status == Running && t in m.calls && m.calls[t].Sending?
    requires u !in m.calls && y in m.socks && m.socks[y] == Connected(m.calls[t].conn, m.calls[t].side)
    ensures TransferSteps(steps, t, u, y) && Exec(m, steps).Some? && WakesSignalled(m, steps)
    ensures var call, m' := m.calls[t], Exec(m, steps).value;
      && call.conn in m.conns && call.written <= |call.data| && call.conn in m'.conns
      && t !in m'.calls && u !in m'.calls
      && m'.conns[call.conn].Get(call.side).received ==
         m.conns[call.conn].Get(call.side).accepted + call.data[call.written..]
  {
    var c, side := m.calls[t].conn, m.calls[t].side;
    ReaderFacts(m, u, y, c, side);
    SenderFacts(m, t);
    var send := SendGoesOn(m, t, u, y, c, side);
    var m1 := Exec(m, send).value;
    var read := ReaderEmpties(m1, u, y, c, side);
    RunAppend(m, send, read);
    steps := send + read;
    ReaderFacts(Exec(m, steps).value, u, y, c, side);
  }
}
