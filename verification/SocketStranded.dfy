/**
 Calls that no close wakes up, in the model of Sockets.dfy.

 Closing the last socket of a side signals only the sleepers on the other side's buffer, so it leaves
 blocked senders behind.  Which ones is described exactly, and that they sleep on until a spurious
 wake-up.  The last part is the run in which closing a listener faults.
 */
module SocketStranded {
  import opened Common
  import opened Sockets
  import opened SocketAccounting
  import opened SocketStreams
  import opened RingBuffer

  /** The side whose sockets the call depends on. */
  function Peer(call: Call): Side {
    if call.Sending? then call.side else Other(call.side)
  }

  /** The call sleeps without a signal although its peer side has no reference: it would return if it looked again. */
  predicate Stranded(s: State, t: Tid) {
    && t in s.calls && s.calls[t].asleep && !s.calls[t].signalled
    && s.calls[t].conn in s.conns && s.conns[s.calls[t].conn].Get(Peer(s.calls[t])).refcount == 0
  }

  /** Closing the socket leaves the call behind. */
  predicate Strands(s: State, x: SockId, t: Tid)
    requires x in s.socks && t in s.calls
  {
    var call := s.calls[t];
    && call.asleep && !call.signalled
    && match s.socks[x]
       case Connected(c, side) =>
         call.Sending? && call.conn == c && call.side == side && c in s.conns && s.conns[c].Get(side).refcount == 1
       case _ => false
  }

  // ---------- which steps strand a call ----------

  lemma ConnOfCall(s: State, t: Tid)
    requires Inv(s) && t in s.calls
    ensures var call := s.calls[t];
      && call.conn in s.conns && ConnCounts(s.conns[call.conn]) && CallInv(s, call)
      && 0 < s.conns[call.conn].Get(if call.Sending? then Other(call.side) else call.side).refcount
  {
    assert CallInv(s, s.calls[t]);
    ConnOfSock(s, s.calls[t].sock);
  }

  /** The call is the same, or was signalled, and its peer side did not lose its last reference. */
  lemma NotStrandedFrame(s: State, s': State, t: Tid)
    requires Inv(s) && t in s.calls && Stranded(s', t)
    requires s'.calls[t] == s.calls[t] || s'.calls[t] == s.calls[t].(signalled := true)
    requires forall side :: s.conns[s.calls[t].conn].Get(side).refcount <= s'.conns[s.calls[t].conn].Get(side).refcount
    ensures Stranded(s, t)
  {
  }

  lemma QuietStepStrandsNobody(s: State, step: Step, t: Tid)
    requires Inv(s) && Enabled(s, step) && !step.Close? && !IsCallStep(step)
    requires t in s.calls && Stranded(Apply(s, step), t)
    ensures Stranded(s, t)
  {
    ConnOfCall(s, t);
    QuietCalls(s, step);
    QuietStepKeepsConn(s, step, s.calls[t].conn);
    NotStrandedFrame(s, Apply(s, step), t);
  }

  /** A call that starts or finishes in the step, or is woken by it, does not sleep afterwards. */
  lemma CallSleeps(s: State, step: Step, t: Tid)
    requires Enabled(s, step) && (step.SendCall? || step.RecvCall? || step.WakeUp?)
    requires t in s.calls && t in Apply(s, step).calls && Apply(s, step).calls[t].asleep
    ensures Apply(s, step).calls[t] == s.calls[t]
  {
  }

  lemma SameShapeStrandsNobody(s: State, s': State, t: Tid)
    requires Inv(s) && SameShape(s, s') && t in s.calls && Stranded(s', t)
    requires s'.calls[t] == s.calls[t] || s'.calls[t] == s.calls[t].(signalled := true)
    ensures Stranded(s, t)
  {
    ConnOfCall(s, t);
    NotStrandedFrame(s, s', t);
  }

  lemma SendRoundStrandsNobody(s: State, u: Tid, t: Tid)
    requires Inv(s) && Enabled(s, SendRound(u)) && t in s.calls && Stranded(Apply(s, SendRound(u)), t)
    ensures Stranded(s, t)
  {
    ConnOfCall(s, u);
    SendRoundShape(s, u);
    SendRoundEffect(s, u);
    if t != u {
      SendRoundSignals(s, u);
      SameShapeStrandsNobody(s, Apply(s, SendRound(u)), t);
    }
  }

  lemma RecvRoundStrandsNobody(s: State, u: Tid, t: Tid)
    requires Inv(s) && Enabled(s, RecvRound(u)) && t in s.calls && Stranded(Apply(s, RecvRound(u)), t)
    ensures Stranded(s, t)
  {
    ConnOfCall(s, u);
    RecvRoundShape(s, u);
    RecvRoundSignals(s, u);
    if t != u {
      SameShapeStrandsNobody(s, Apply(s, RecvRound(u)), t);
    } else {
      RecvWaits(s, u);
    }
  }

  lemma RecvWaits(s: State, u: Tid)
    requires Enabled(s, RecvRound(u)) && s.calls[u].conn in s.conns && u in Apply(s, RecvRound(u)).calls
    ensures var call := s.calls[u];
      && s.conns[call.conn].Get(Other(call.side)).refcount != 0
      && Peer(Apply(s, RecvRound(u)).calls[u]) == Other(call.side)
      && Apply(s, RecvRound(u)).calls[u].conn == call.conn
  {
    assert Receive(s, u) == Wait;
  }

  lemma CallStrandsNobody(s: State, step: Step, t: Tid)
    requires Inv(s) && Enabled(s, step) && (step.SendCall? || step.RecvCall? || step.WakeUp?)
    requires t in s.calls && Stranded(Apply(s, step), t)
    ensures Stranded(s, t)
  {
    CallStepShape(s, step);
    CallSleeps(s, step, t);
    SameShapeStrandsNobody(s, Apply(s, step), t);
  }

  lemma CloseConnectedStrands(s: State, x: SockId, t: Tid)
    requires Inv(s) && Enabled(s, Close(x)) && s.socks[x].Connected? && t in s.calls && !Stranded(s, t)
    ensures Stranded(Apply(s, Close(x)), t) <==> Strands(s, x, t)
  {
    StepKeepsInv(s, Close(x));
    CloseCounts(s, x);
    CloseKeepsCall(s, x, t);
    LastCloseStrands(s, Apply(s, Close(x)), x, s.socks[x].conn, s.socks[x].side, t);
  }

  /** The connection of a call in progress outlives the close of another socket, with a reference to its side. */
  lemma CloseKeepsCall(s: State, x: SockId, t: Tid)
    requires Enabled(s, Close(x)) && Inv(s) && Inv(Apply(s, Close(x))) && t in s.calls
    ensures var s' := Apply(s, Close(x));
      && t in s'.calls && s.calls[t].conn in s.conns && s.calls[t].conn in s'.conns
      && (s'.calls[t] == s.calls[t] || s'.calls[t] == s.calls[t].(signalled := true))
      && 0 < s'.conns[s.calls[t].conn].Get(Other(Peer(s.calls[t]))).refcount
  {
    CloseCalls(s, x);
    ConnOfCall(s, t);
    ConnOfCall(Apply(s, Close(x)), t);
  }

  lemma LastCloseStrands(s: State, s': State, x: SockId, c: ConnId, side: Side, t: Tid)
    requires x in s.socks && s.socks[x] == Connected(c, side) && Closed(s, s', c, side) && !Stranded(s, t)
    requires t in s.calls && t in s'.calls && s.calls[t].conn in s.conns && s.calls[t].conn in s'.conns
    requires 0 < s'.conns[s.calls[t].conn].Get(Other(Peer(s.calls[t]))).refcount
    ensures Stranded(s', t) <==> Strands(s, x, t)
  {
  }

  /** A close that does not fault leaves the connections of all calls alone. */
  lemma CloseBoundStrands(s: State, x: SockId, t: Tid)
    requires Inv(s) && Enabled(s, Close(x)) && s.socks[x].Bound? && t in s.calls && !Stranded(s, t)
    ensures !Stranded(Apply(s, Close(x)), t)
  {
    CloseBoundEffect(s, x);
    ConnOfCall(s, t);
    StepKeepsInv(s, Close(x));
    ConnOfCall(Apply(s, Close(x)), t);
  }

  /**
   A step leaves a call behind exactly if it closes the last socket of the side to which the call, a
   send, is blocked.
   */
  lemma WhoIsStranded(s: State, steps: seq<Step>, m: State, step: Step, t: Tid)
    requires Init(s) && Exec(s, steps) == Some(m) && Enabled(m, step) && t in m.calls && !Stranded(m, t)
    ensures Stranded(Apply(m, step), t) <==> step.Close? && Strands(m, step.sock, t)
  {
    ReachableInv(s, steps);
    if step.Close? {
      CloseStrands(m, step.sock, t);
    } else if Stranded(Apply(m, step), t) {
      OnlyCloseStrands(m, step, t);
    }
  }

  lemma CloseStrands(s: State, x: SockId, t: Tid)
    requires Inv(s) && Enabled(s, Close(x)) && t in s.calls && !Stranded(s, t)
    ensures Stranded(Apply(s, Close(x)), t) <==> Strands(s, x, t)
  {
    match s.socks[x]
    case Connected(_, _) => CloseConnectedStrands(s, x, t);
    case Bound(_) => CloseBoundStrands(s, x, t);
    case Plain =>
  }

  lemma OnlyCloseStrands(s: State, step: Step, t: Tid)
    requires Inv(s) && Enabled(s, step) && !step.Close? && t in s.calls && Stranded(Apply(s, step), t)
    ensures Stranded(s, t)
  {
    if step.SendRound? {
      SendRoundStrandsNobody(s, step.t, t);
    } else if step.RecvRound? {
      RecvRoundStrandsNobody(s, step.t, t);
    } else if IsCallStep(step) {
      CallStrandsNobody(s, step, t);
    } else {
      QuietStepStrandsNobody(s, step, t);
    }
  }

  // ---------- a stranded call stays asleep ----------

  lemma StrandedFrame(s: State, s': State, t: Tid)
    requires Stranded(s, t) && Inv(s') && t in s'.calls && s'.calls[t] == s.calls[t]
    requires StaysZero(s, s', s.calls[t].conn, Peer(s.calls[t]))
    ensures Stranded(s', t)
  {
    ConnOfCall(s', t);
  }

  /** The call a stranded sleeper waits for can neither send to its half nor change it. */
  lemma SendRoundWakesNoStranded(s: State, u: Tid, t: Tid)
    requires CallsInv(s) && SocksInv(s) && ConnsInv(s) && Enabled(s, SendRound(u)) && Stranded(s, t)
    ensures t in Apply(s, SendRound(u)).calls && Apply(s, SendRound(u)).calls[t] == s.calls[t]
  {
    assert CallInv(s, s.calls[u]);
    ConnOfSock(s, s.calls[u].sock);
  }

  lemma RecvRoundWakesNoStranded(s: State, u: Tid, t: Tid)
    requires CallsInv(s) && SocksInv(s) && ConnsInv(s) && SleepsInv(s) && Enabled(s, RecvRound(u)) && Stranded(s, t)
    ensures t in Apply(s, RecvRound(u)).calls && Apply(s, RecvRound(u)).calls[t] == s.calls[t]
  {
    assert CallInv(s, s.calls[u]);
    ConnOfSock(s, s.calls[u].sock);
    assert SleepInv(s, s.calls[t]);
  }

  lemma CloseWakesNoStranded(s: State, x: SockId, t: Tid)
    requires Enabled(s, Close(x)) && Inv(s) && Inv(Apply(s, Close(x))) && Stranded(s, t)
    ensures t in Apply(s, Close(x)).calls && Apply(s, Close(x)).calls[t] == s.calls[t]
  {
    CloseKeepsCall(s, x, t);
    if s.socks[x].Connected? {
      ConnOfSock(s, x);
      CloseCounts(s, x);
    }
  }

  lemma OtherStepWakesNoStranded(s: State, step: Step, t: Tid)
    requires Enabled(s, step) && t in s.calls && s.calls[t].asleep && step != WakeUp(t)
    requires !step.SendRound? && !step.RecvRound? && !step.Close?
    ensures t in Apply(s, step).calls && Apply(s, step).calls[t] == s.calls[t]
  {
  }

  lemma StrandedStep(s: State, step: Step, t: Tid)
    requires Enabled(s, step) && Inv(s) && Inv(Apply(s, step)) && SleepsInv(s) && Stranded(s, t) && step != WakeUp(t)
    ensures t in Apply(s, step).calls && Apply(s, step).calls[t] == s.calls[t]
  {
    match step
    case SendRound(u) => SendRoundWakesNoStranded(s, u, t);
    case RecvRound(u) => RecvRoundWakesNoStranded(s, u, t);
    case Close(x) => CloseWakesNoStranded(s, x, t);
    case _ => OtherStepWakesNoStranded(s, step, t);
  }

  lemma StrandedStays(s: State, step: Step, t: Tid)
    requires Inv(s) && SleepsInv(s) && Enabled(s, step) && Stranded(s, t) && step != WakeUp(t)
    ensures Stranded(Apply(s, step), t)
  {
    StepKeepsInv(s, step);
    StrandedStep(s, step, t);
    ZeroIsFinalStep(s, step, s.calls[t].conn, Peer(s.calls[t]));
    StrandedFrame(s, Apply(s, step), t);
  }

  /** Whatever happens later, a stranded call sleeps on until a spurious wake-up. */
  lemma {:induction false} StrandedForever(s: State, steps: seq<Step>, m: State, later: seq<Step>, t: Tid)
    requires Init(s) && Exec(s, steps) == Some(m) && Stranded(m, t) && Exec(m, later).Some?
    requires WakeUp(t) !in later
    ensures var s' := Exec(m, later).value; Inv(s') && SleepsInv(s') && Stranded(s', t)
  {
    ReachableStreams(s, steps);
    if later != [] {
      var before, step := later[..|later| - 1], later[|later| - 1];
      StrandedForever(s, steps, m, before, t);
      StepKeepsInv(Exec(m, before).value, step);
      StepKeepsSleep(Exec(m, before).value, step);
      StrandedStays(Exec(m, before).value, step, t);
    }
  }

  /** Nobody leaves a blocked receiver behind. */
  lemma OnlySendsAreStranded(s: State, steps: seq<Step>, s': State, t: Tid)
    requires Init(s) && Exec(s, steps) == Some(s') && Stranded(s', t)
    ensures s'.calls[t].Sending?
  {
    ReachableStreams(s, steps);
    assert SleepInv(s', s'.calls[t]);
  }

  // ---------- runs that show both problems ----------

  /** A client connects to a listener that has not accepted anyone yet. */
  lemma Connecting(s: State) returns (steps: seq<Step>, m: State)
    requires Init(s)
    ensures Exec(s, steps) == Some(m) && m.status == Running && m.calls == map[] && m.freed == []
    ensures m.socks == map[1 := Bound(1024), 2 := Connected(0, Client)]
    ensures m.ports == map[1024 := Listener(1, 1, [0])]
    ensures m.conns == map[0 := NewConn(2).(server := NewConn(2).server.(refcount := 1), pending := Some(1024))]
  {
    steps, m := [], s;
    ExecThen(s, steps, Open(1));
    steps, m := steps + [Open(1)], Apply(m, Open(1));
    ExecThen(s, steps, Bind(1, 1024));
    steps, m := steps + [Bind(1, 1024)], Apply(m, Bind(1, 1024));
    assert m.ports == map[1024 := Listener(1, 0, [])];
    ExecThen(s, steps, Listen(1, 1));
    steps, m := steps + [Listen(1, 1)], Apply(m, Listen(1, 1));
    assert m.ports == map[1024 := Listener(1, 1, [])] && m.socks == map[1 := Bound(1024)];
    ExecThen(s, steps, Open(2));
    steps, m := steps + [Open(2)], Apply(m, Open(2));
    ExecThen(s, steps, Connect(2, 1024, 0));
    steps, m := steps + [Connect(2, 1024, 0)], Apply(m, Connect(2, 1024, 0));
    assert m.ports[1024].backlog == [0];
  }

  /** Closing the listener now faults: the client has not been accepted. */
  lemma ListenerCloseFaults(s: State) returns (steps: seq<Step>, m: State)
    requires Init(s)
    ensures Exec(s, steps + [Close(1)]) == Some(m.(status := Faulted)) && Exec(s, steps) == Some(m)
    ensures m.socks == map[1 := Bound(1024), 2 := Connected(0, Client)]
  {
    steps, m := Connecting(s);
    assert ClientWaits(m.conns, [0]) by {
      assert 0 in [0] && m.conns[0].client.refcount == 1;
    }
    ReachableInv(s, steps);
    CloseBoundEffect(m, 1);
    ExecThen(s, steps, Close(1));
  }

  /** A sender blocked on a full buffer is left behind when the last socket that could read it closes. */
  lemma PeerCloseStrandsSender(s: State, data: seq<byte>) returns (steps: seq<Step>, m: State)
    requires Init(s) && CAPACITY < |data|
    ensures Exec(s, steps) == Some(m) && Stranded(m, 7) && m.calls[7].Sending?
  {
    steps, m := Connecting(s);
    ExecThen(s, steps, Accept(1, 3));
    steps, m := steps + [Accept(1, 3)], Apply(m, Accept(1, 3));
    ExecThen(s, steps, SendCall(7, 2, data));
    steps, m := steps + [SendCall(7, 2, data)], Apply(m, SendCall(7, 2, data));
    ExecThen(s, steps, SendRound(7));
    steps, m := steps + [SendRound(7)], Apply(m, SendRound(7));
    assert m.calls[7].written == CAPACITY;
    ExecThen(s, steps, Close(3));
    WhoIsStranded(s, steps, m, Close(3), 7);
    steps, m := steps + [Close(3)], Apply(m, Close(3));
    OnlySendsAreStranded(s, steps, m, 7);
  }
}
