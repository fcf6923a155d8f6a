/**
 The byte streams and blocking calls of Sockets.dfy.

 Over every run no byte is lost, duplicated or reordered, end of stream is final, and a call sleeps
 without a pending signal only while it really has to wait, up to one exactly described case.
 */
module SocketStreams {
  import opened Common
  import opened Sockets
  import opened SocketAccounting
  import opened RingBuffer

  // ---------- the invariant ----------

  /** What the half has accepted so far fits what was offered and what a sender still has to write. */
  predicate OfferedInv(h: Half, calls: map<Tid, Call>, c: ConnId, side: Side) {
    h.exclusive ==>
      && h.accepted <= h.offered
      && (forall t, u ::
        t in calls && u in calls && SendsTo(calls[t], c, side) && SendsTo(calls[u], c, side) ==> t == u)
      && (0 < h.refcount ==>
        && (forall t :: t in calls && SendsTo(calls[t], c, side) && calls[t].written <= |calls[t].data| ==>
          h.offered == h.accepted + calls[t].data[calls[t].written..])
        && (NobodySends(calls, c, side) ==> h.offered == h.accepted))
  }

  predicate HalfInv(h: Half, calls: map<Tid, Call>, c: ConnId, side: Side) {
    && h.received + h.stored == h.accepted
    && OfferedInv(h, calls, c, side)
  }

  predicate StreamsInv(s: State) {
    forall c :: c in s.conns ==>
      HalfInv(s.conns[c].client, s.calls, c, Client) && HalfInv(s.conns[c].server, s.calls, c, Server)
  }

  /** A call that sleeps without a signal to come waits for something that has not happened. */
  predicate SleepOk(call: Call, conn: Conn) {
    && (call.asleep && call.Receiving? ==> call.block)
    && (call.asleep && !call.signalled ==>
      if call.Sending? then |conn.Get(call.side).stored| == CAPACITY && call.written < |call.data|
      else
        && conn.Get(call.side).stored == []
        && 0 < conn.Get(Other(call.side)).refcount)
  }

  predicate SleepInv(s: State, call: Call) {
    call.conn in s.conns ==> SleepOk(call, s.conns[call.conn])
  }

  predicate SleepsInv(s: State) {
    forall t :: t in s.calls ==> SleepInv(s, s.calls[t])
  }

  // ---------- streams: lemmas on one half ----------

  /** The same call up to its sleeping state. */
  predicate SameSend(was: Call, now: Call) {
    && was.Sending? == now.Sending? && was.conn == now.conn && was.side == now.side
    && (was.Sending? ==> was.data == now.data && was.written == now.written)
  }

  /** Senders to the half are the same in both maps. */
  ghost predicate SameSenders(was: map<Tid, Call>, now: map<Tid, Call>, c: ConnId, side: Side) {
    && (forall t :: t in was && SendsTo(was[t], c, side) ==> t in now && SameSend(was[t], now[t]))
    && (forall t :: t in now && SendsTo(now[t], c, side) ==> t in was && SameSend(was[t], now[t]))
  }

  lemma HalfFrame(h: Half, h': Half, was: map<Tid, Call>, now: map<Tid, Call>, c: ConnId, side: Side)
    requires HalfInv(h, was, c, side) && SameSenders(was, now, c, side)
    requires h'.received == h.received && h'.stored == h.stored && h'.accepted == h.accepted
    requires h'.offered == h.offered && h'.exclusive == h.exclusive && (0 < h'.refcount ==> 0 < h.refcount)
    ensures HalfInv(h', now, c, side)
  {
  }

  lemma NewSend(h: Half, calls: map<Tid, Call>, t: Tid, call: Call, c: ConnId, side: Side)
    requires HalfInv(h, calls, c, side) && t !in calls && SendsTo(call, c, side) && call.written == 0
    ensures HalfInv(Offer(h, call.data, NobodySends(calls, c, side)), calls[t := call], c, side)
  {
    if h.exclusive && NobodySends(calls, c, side) {
      assert call.data[0..] == call.data;
      assert h.accepted <= h.offered + call.data;
      var now := calls[t := call];
      assert !NobodySends(now, c, side) by {
        assert SendsTo(now[t], c, side);
      }
      forall u | u in now && u != t ensures !SendsTo(now[u], c, side) {
        assert now[u] == calls[u];
      }
    }
  }

  /** The half and the sender's call after a round that finds the receiving side referenced. */
  lemma SendSome(h: Half, was: map<Tid, Call>, now: map<Tid, Call>, t: Tid, c: ConnId, side: Side)
    requires HalfInv(h, was, c, side) && |h.stored| <= CAPACITY && 0 < h.refcount
    requires t in was && SendsTo(was[t], c, side) && was[t].written <= |was[t].data|
    requires var rest := was[t].data[was[t].written..];
      var n := Min(|rest|, CAPACITY - |h.stored|);
      && SameSenders(was - {t}, now - {t}, c, side)
      && (t in now <==> n < |rest|)
      && (t in now ==> SendsTo(now[t], c, side) && now[t].data == was[t].data && now[t].written == was[t].written + n)
    ensures HalfInv(WriteTo(h, was[t].data[was[t].written..]), now, c, side)
  {
    var rest := was[t].data[was[t].written..];
    var n := Min(|rest|, CAPACITY - |h.stored|);
    var h' := WriteTo(h, rest);
    assert h'.received + h'.stored == h.accepted + rest[..n];
    if h.exclusive {
      assert h.offered == h.accepted + rest;
      assert rest == rest[..n] + rest[n..];
      assert h.offered == h'.accepted + rest[n..];
      forall u | u in now && u != t ensures !SendsTo(now[u], c, side) {
        assert (now - {t})[u] == now[u];
      }
      if t in now {
        assert now[t].data[now[t].written..] == rest[n..];
      } else {
        assert rest[n..] == [];
      }
    }
  }

  lemma ReceiveSome(h: Half, was: map<Tid, Call>, now: map<Tid, Call>, count: nat, c: ConnId, side: Side)
    requires HalfInv(h, was, c, side) && SameSenders(was, now, c, side)
    ensures HalfInv(ReadFrom(h, count), now, c, side)
  {
    var n := Min(count, |h.stored|);
    assert h.stored == h.stored[..n] + h.stored[n..];
  }

  // ---------- streams: every step ----------

  predicate SameData(h: Half, h': Half) {
    && h'.received == h.received && h'.stored == h.stored && h'.accepted == h.accepted
    && h'.offered == h.offered && h'.exclusive == h.exclusive
  }

  predicate SameConnData(conn: Conn, conn': Conn) {
    SameData(conn.client, conn'.client) && SameData(conn.server, conn'.server)
  }

  /** The connection keeps its buffers, and each side its references. */
  predicate ConnKept(conn: Conn, conn': Conn) {
    && SameConnData(conn, conn')
    && conn.client.refcount <= conn'.client.refcount && conn.server.refcount <= conn'.server.refcount
  }

  lemma DataAfterCloseBound(s: State, x: SockId, c: ConnId)
    requires SocksInv(s) && PortsInv(s) && FreedInv(s) && Enabled(s, Close(x)) && s.socks[x].Bound?
    requires c in Apply(s, Close(x)).conns
    ensures c in s.conns && SameConnData(s.conns[c], Apply(s, Close(x)).conns[c])
  {
    CloseBoundEffect(s, x);
  }

  lemma DataAfterClose(s: State, x: SockId, c: ConnId)
    requires SocksInv(s) && PortsInv(s) && FreedInv(s) && Enabled(s, Close(x))
    requires c in Apply(s, Close(x)).conns
    ensures c in s.conns && SameConnData(s.conns[c], Apply(s, Close(x)).conns[c])
  {
    match s.socks[x]
    case Bound(_) => DataAfterCloseBound(s, x, c);
    case Connected(_, _) => DataAfterCloseConnected(s, x, c);
    case Plain =>
  }

  lemma DataAfterCloseConnected(s: State, x: SockId, c: ConnId)
    requires Enabled(s, Close(x)) && s.socks[x].Connected?
    requires c in Apply(s, Close(x)).conns
    ensures c in s.conns && SameConnData(s.conns[c], Apply(s, Close(x)).conns[c])
  {
    var d, side := s.socks[x].conn, s.socks[x].side;
    if c == d && s.conns[c] != Apply(s, Close(x)).conns[c] {
      assert Apply(s, Close(x)).conns[c] == s.conns[c].With(side, RemoveSock(s.conns[c].Get(side), x).value);
    }
  }

  lemma DataAfterAccept(s: State, x: SockId, y: SockId, c: ConnId)
    requires Enabled(s, Accept(x, y)) && c in Apply(s, Accept(x, y)).conns
    ensures c in s.conns && ConnKept(s.conns[c], Apply(s, Accept(x, y)).conns[c])
  {
  }

  lemma DataAfterDup(s: State, x: SockId, y: SockId, c: ConnId)
    requires Enabled(s, Dup(x, y)) && c in Apply(s, Dup(x, y)).conns
    ensures c in s.conns && ConnKept(s.conns[c], Apply(s, Dup(x, y)).conns[c])
  {
  }

  lemma DataAfterJoin(s: State, step: Step, c: ConnId)
    requires Enabled(s, step) && (step.Accept? || step.Dup?) && c in Apply(s, step).conns
    ensures c in s.conns && ConnKept(s.conns[c], Apply(s, step).conns[c])
  {
    match step
    case Accept(x, y) => DataAfterAccept(s, x, y, c);
    case Dup(x, y) => DataAfterDup(s, x, y, c);
  }

  /** Opening, accepting, duplicating and closing sockets leaves the buffers alone. */
  lemma DataUnchanged(s: State, step: Step, c: ConnId)
    requires SocksInv(s) && PortsInv(s) && FreedInv(s)
    requires Enabled(s, step) && !IsCallStep(step) && c in s.conns && c in Apply(s, step).conns
    ensures SameConnData(s.conns[c], Apply(s, step).conns[c])
  {
    match step
    case Close(x) => DataAfterClose(s, x, c);
    case Accept(_, _) => DataAfterJoin(s, step, c);
    case Dup(_, _) => DataAfterJoin(s, step, c);
    case _ =>
  }

  lemma SendersUnchanged(s: State, step: Step, c: ConnId, side: Side)
    requires Enabled(s, step) && !IsCallStep(step)
    ensures SameSenders(s.calls, Apply(s, step).calls, c, side)
  {
    if step.Close? {
      var x := step.sock;
      CloseCalls(s, x);
      if s.socks[x].Connected? {
        SameSendersAfterBroadcast(s.calls, s.socks[x].conn, Other(s.socks[x].side), c, side);
      }
    } else {
      QuietCalls(s, step);
    }
  }

  lemma QuietCalls(s: State, step: Step)
    requires Enabled(s, step) && !step.Close? && !IsCallStep(step)
    ensures Apply(s, step).calls == s.calls
  {
  }

  lemma CloseCalls(s: State, x: SockId)
    requires Enabled(s, Close(x))
    ensures Apply(s, Close(x)).calls == s.calls ||
      (s.socks[x].Connected? && Apply(s, Close(x)).calls == Broadcast(s.calls, s.socks[x].conn, Other(s.socks[x].side)))
  {
  }

  lemma SameSendersAfterBroadcast(calls: map<Tid, Call>, d: ConnId, other: Side, c: ConnId, side: Side)
    ensures SameSenders(calls, Broadcast(calls, d, other), c, side)
  {
  }

  lemma NobodySendsToNew(s: State, c: ConnId, side: Side)
    requires Inv(s) && c !in s.conns
    ensures NobodySends(s.calls, c, side)
  {
    forall t | t in s.calls ensures !SendsTo(s.calls[t], c, side) {
      assert CallInv(s, s.calls[t]);
      assert SockInv(s, s.calls[t].sock, s.socks[s.calls[t].sock]);
    }
  }

  lemma OtherStepKeepsStreams(s: State, step: Step)
    requires Inv(s) && StreamsInv(s) && Enabled(s, step) && !IsCallStep(step)
    ensures StreamsInv(Apply(s, step))
  {
    var s' := Apply(s, step);
    forall c | c in s'.conns
      ensures HalfInv(s'.conns[c].client, s'.calls, c, Client) && HalfInv(s'.conns[c].server, s'.calls, c, Server)
    {
      SendersUnchanged(s, step, c, Client);
      SendersUnchanged(s, step, c, Server);
      if c in s.conns {
        DataUnchanged(s, step, c);
        ZeroIsFinalStep(s, step, c, Client);
        ZeroIsFinalStep(s, step, c, Server);
        HalfFrame(s.conns[c].client, s'.conns[c].client, s.calls, s'.calls, c, Client);
        HalfFrame(s.conns[c].server, s'.conns[c].server, s.calls, s'.calls, c, Server);
      } else {
        NobodySendsToNew(s, c, Client);
        NobodySendsToNew(s, c, Server);
        NewConnections(s, step, c);
      }
    }
  }

  lemma NewConnections(s: State, step: Step, c: ConnId)
    requires SocksInv(s) && PortsInv(s) && FreedInv(s)
    requires Enabled(s, step) && !IsCallStep(step) && c !in s.conns && c in Apply(s, step).conns
    ensures var conn, empty := Apply(s, step).conns[c], Half(0, [], [], [], [], [], true);
      SameData(empty, conn.client) && SameData(empty, conn.server)
  {
    match step
    case Close(x) => DataAfterClose(s, x, c);
    case Accept(_, _) => DataAfterJoin(s, step, c);
    case Dup(_, _) => DataAfterJoin(s, step, c);
    case _ =>
  }

  /** Only the call of thread t, on one half, differs by more than its sleeping state. */
  ghost predicate Related(was: map<Tid, Call>, now: map<Tid, Call>, t: Tid, c: ConnId, side: Side) {
    && (forall u :: u != t && u in was ==> u in now && SameSend(was[u], now[u]))
    && (forall u :: u != t && u in now ==> u in was)
    && (t in was ==> was[t].conn == c && was[t].side == side)
    && (t in now ==> now[t].conn == c && now[t].side == side)
  }

  lemma OthersSend(was: map<Tid, Call>, now: map<Tid, Call>, t: Tid, c: ConnId, side: Side, d: ConnId, side': Side)
    requires Related(was, now, t, c, side) && (c != d || side != side')
    ensures SameSenders(was, now, d, side')
  {
  }

  /** s' is s with the buffer of one half and the calls changed. */
  predicate OneHalf(s: State, s': State, c: ConnId, side: Side) {
    && c in s.conns && s'.conns.Keys == s.conns.Keys
    && (forall e :: e in s.conns && e != c ==> s'.conns[e] == s.conns[e])
    && s'.conns[c].Get(Other(side)) == s.conns[c].Get(Other(side))
  }

  lemma OtherHalf(s: State, s': State, t: Tid, c: ConnId, side: Side, d: ConnId, side': Side)
    requires StreamsInv(s) && OneHalf(s, s', c, side) && Related(s.calls, s'.calls, t, c, side)
    requires d in s.conns && (c != d || side != side')
    ensures HalfInv(s'.conns[d].Get(side'), s'.calls, d, side')
  {
    OthersSend(s.calls, s'.calls, t, c, side, d, side');
    HalfFrame(s.conns[d].Get(side'), s'.conns[d].Get(side'), s.calls, s'.calls, d, side');
  }

  /** If the step affects one half only, that half decides whether the invariant is kept. */
  lemma StreamsFromOneHalf(s: State, s': State, t: Tid, c: ConnId, side: Side)
    requires StreamsInv(s) && OneHalf(s, s', c, side) && Related(s.calls, s'.calls, t, c, side)
    requires HalfInv(s'.conns[c].Get(side), s'.calls, c, side)
    ensures StreamsInv(s')
  {
    forall d | d in s'.conns
      ensures HalfInv(s'.conns[d].client, s'.calls, d, Client) && HalfInv(s'.conns[d].server, s'.calls, d, Server)
    {
      if c != d || side != Client {
        OtherHalf(s, s', t, c, side, d, Client);
      }
      if c != d || side != Server {
        OtherHalf(s, s', t, c, side, d, Server);
      }
    }
  }

  lemma HalfOf(s: State, c: ConnId, side: Side)
    requires StreamsInv(s) && c in s.conns
    ensures HalfInv(s.conns[c].Get(side), s.calls, c, side)
  {
  }

  lemma SendCallKeepsStreams(s: State, t: Tid, x: SockId, data: seq<byte>)
    requires ConnsInv(s) && SocksInv(s) && StreamsInv(s) && Enabled(s, SendCall(t, x, data))
    ensures StreamsInv(Apply(s, SendCall(t, x, data)))
  {
    ConnOfSock(s, x);
    var s' := Apply(s, SendCall(t, x, data));
    var c, side := s.socks[x].conn, Other(s.socks[x].side);
    HalfOf(s, c, side);
    NewSend(s.conns[c].Get(side), s.calls, t, Sending(x, c, side, data, 0, false, false), c, side);
    StreamsFromOneHalf(s, s', t, c, side);
  }

  lemma SendRoundEffect(s: State, t: Tid)
    requires Enabled(s, SendRound(t)) && s.calls[t].conn in s.conns && s.calls[t].written <= |s.calls[t].data|
    requires |s.conns[s.calls[t].conn].Get(s.calls[t].side).stored| <= CAPACITY
    ensures var s' := Apply(s, SendRound(t));
      var call := s.calls[t];
      var h := s.conns[call.conn].Get(call.side);
      var rest := call.data[call.written..];
      var n := Min(|rest|, CAPACITY - |h.stored|);
      && OneHalf(s, s', call.conn, call.side) && Related(s.calls, s'.calls, t, call.conn, call.side)
      && if h.refcount == 0 then s'.conns == s.conns && t !in s'.calls
         else
          && s'.conns[call.conn].Get(call.side) == WriteTo(h, rest)
          && (t in s'.calls <==> n < |rest|)
          && (t in s'.calls ==> s'.calls[t] == call.(written := call.written + n, asleep := true, signalled := false))
  {
  }

  lemma SendRoundKeepsStreams(s: State, t: Tid)
    requires ConnsInv(s) && SocksInv(s) && CallsInv(s) && StreamsInv(s) && Enabled(s, SendRound(t))
    ensures StreamsInv(Apply(s, SendRound(t)))
  {
    var call := s.calls[t];
    var c, side := call.conn, call.side;
    assert CallInv(s, call);
    ConnOfSock(s, call.sock);
    SendRoundEffect(s, t);
    HalfOf(s, c, side);
    SentOnHalf(s.conns[c].Get(side), s.calls, Apply(s, SendRound(t)).calls, t, c, side);
    StreamsFromOneHalf(s, Apply(s, SendRound(t)), t, c, side);
  }

  lemma SentOnHalf(h: Half, was: map<Tid, Call>, now: map<Tid, Call>, t: Tid, c: ConnId, side: Side)
    requires HalfInv(h, was, c, side) && |h.stored| <= CAPACITY && Related(was, now, t, c, side)
    requires t in was && SendsTo(was[t], c, side) && was[t].written <= |was[t].data|
    requires var rest := was[t].data[was[t].written..];
      var n := Min(|rest|, CAPACITY - |h.stored|);
      if h.refcount == 0 then t !in now
      else
        && (t in now <==> n < |rest|)
        && (t in now ==> SendsTo(now[t], c, side) && now[t].data == was[t].data && now[t].written == was[t].written + n)
    ensures h.refcount == 0 ==> HalfInv(h, now, c, side)
    ensures h.refcount != 0 ==> HalfInv(WriteTo(h, was[t].data[was[t].written..]), now, c, side)
  {
    if h.refcount != 0 {
      SendSome(h, was, now, t, c, side);
    }
  }

  lemma RecvRoundEffect(s: State, t: Tid)
    requires Enabled(s, RecvRound(t)) && s.calls[t].conn in s.conns
    ensures var s' := Apply(s, RecvRound(t));
      var call := s.calls[t];
      var h := s.conns[call.conn].Get(call.side);
      && OneHalf(s, s', call.conn, call.side) && Related(s.calls, s'.calls, t, call.conn, call.side)
      && SameSenders(s.calls, s'.calls, call.conn, call.side)
      && s'.conns[call.conn].Get(call.side) == if Receive(s, t).Data? then ReadFrom(h, call.count) else h
  {
  }

  lemma RecvRoundKeepsStreams(s: State, t: Tid)
    requires ConnsInv(s) && SocksInv(s) && CallsInv(s) && StreamsInv(s) && Enabled(s, RecvRound(t))
    ensures StreamsInv(Apply(s, RecvRound(t)))
  {
    var call := s.calls[t];
    var c, side := call.conn, call.side;
    assert CallInv(s, call);
    ConnOfSock(s, call.sock);
    var s' := Apply(s, RecvRound(t));
    RecvRoundEffect(s, t);
    HalfOf(s, c, side);
    ReceiveSome(s.conns[c].Get(side), s.calls, s'.calls, call.count, c, side);
    HalfFrame(s.conns[c].Get(side), s.conns[c].Get(side), s.calls, s'.calls, c, side);
    StreamsFromOneHalf(s, s', t, c, side);
  }

  lemma SendersFrame(s: State, s': State)
    requires StreamsInv(s) && s'.conns == s.conns
    requires forall c, side :: c in s.conns ==> SameSenders(s.calls, s'.calls, c, side)
    ensures StreamsInv(s')
  {
    forall c | c in s'.conns
      ensures HalfInv(s'.conns[c].client, s'.calls, c, Client) && HalfInv(s'.conns[c].server, s'.calls, c, Server)
    {
      HalfFrame(s.conns[c].client, s.conns[c].client, s.calls, s'.calls, c, Client);
      HalfFrame(s.conns[c].server, s.conns[c].server, s.calls, s'.calls, c, Server);
    }
  }

  lemma QuietStepKeepsStreams(s: State, step: Step)
    requires StreamsInv(s) && Enabled(s, step) && (step.RecvCall? || step.WakeUp?)
    ensures StreamsInv(Apply(s, step))
  {
    SendersFrame(s, Apply(s, step));
  }

  lemma StepKeepsStreams(s: State, step: Step)
    requires Inv(s) && StreamsInv(s) && Enabled(s, step)
    ensures StreamsInv(Apply(s, step))
  {
    match step
    case SendCall(t, x, data) => SendCallKeepsStreams(s, t, x, data);
    case SendRound(t) => SendRoundKeepsStreams(s, t);
    case RecvRound(t) => RecvRoundKeepsStreams(s, t);
    case RecvCall(_, _, _, _) => QuietStepKeepsStreams(s, step);
    case WakeUp(_) => QuietStepKeepsStreams(s, step);
    case _ => OtherStepKeepsStreams(s, step);
  }

  // ---------- sleeping ----------

  /** Every other call is as it was, except that the sleepers on one half may have been signalled. */
  ghost predicate Signalled(was: map<Tid, Call>, now: map<Tid, Call>, t: Tid, c: ConnId, side: Side, all: bool) {
    forall u :: u != t && u in now ==> (
      && u in was && (now[u] == was[u] || now[u] == was[u].(signalled := true))
      && (all && was[u].conn == c && was[u].side == side && was[u].asleep ==> now[u].signalled))
  }

  /** A call sleeps on as before if its own half is unchanged, and the references of both sides. */
  lemma SleepFrame(call: Call, conn: Conn, conn': Conn)
    requires SleepOk(call, conn) && conn'.Get(call.side).stored == conn.Get(call.side).stored
    requires call.Receiving? && 0 < conn.Get(Other(call.side)).refcount ==> 0 < conn'.Get(Other(call.side)).refcount
    ensures SleepOk(call, conn')
  {
  }

  /** A round that changes a buffer signals all sleepers on it; one that does not changes nothing they wait for. */
  lemma RoundKeepsSleep(s: State, s': State, t: Tid, c: ConnId, side: Side, u: Tid)
    requires SleepsInv(s) && OneHalf(s, s', c, side) && u in s'.calls && u != t
    requires Signalled(s.calls, s'.calls, t, c, side, s'.conns[c].Get(side) != s.conns[c].Get(side))
    requires s'.conns[c].Get(side).refcount == s.conns[c].Get(side).refcount
    ensures SleepInv(s', s'.calls[u])
  {
    assert SleepInv(s, s.calls[u]);
    var call := s.calls[u];
    if call.conn in s.conns {
      if call.conn == c && call.side == side && s'.conns[c].Get(side) != s.conns[c].Get(side) {
        assert s'.calls[u].asleep ==> s'.calls[u].signalled;
      } else {
        SleepFrame(call, s.conns[call.conn], s'.conns[call.conn]);
      }
    }
  }

  lemma SendRoundSignals(s: State, t: Tid)
    requires Enabled(s, SendRound(t)) && s.calls[t].conn in s.conns && s.calls[t].written <= |s.calls[t].data|
    requires |s.conns[s.calls[t].conn].Get(s.calls[t].side).stored| <= CAPACITY
    ensures var s' := Apply(s, SendRound(t));
      var c, side := s.calls[t].conn, s.calls[t].side;
      && Signalled(s.calls, s'.calls, t, c, side, s'.conns != s.conns)
      && c in s'.conns
  {
  }

  lemma SendRoundKeepsSleep(s: State, t: Tid)
    requires Enabled(s, SendRound(t)) && CallsInv(s) && ConnsInv(s) && SocksInv(s) && SleepsInv(s)
    ensures SleepsInv(Apply(s, SendRound(t)))
  {
    var call := s.calls[t];
    assert CallInv(s, call);
    ConnOfSock(s, call.sock);
    SendRoundEffect(s, t);
    SendRoundSignals(s, t);
    var s' := Apply(s, SendRound(t));
    forall u | u in s'.calls ensures SleepInv(s', s'.calls[u]) {
      if u != t {
        RoundKeepsSleep(s, s', t, call.conn, call.side, u);
      }
    }
  }

  lemma RecvRoundSignals(s: State, t: Tid)
    requires Enabled(s, RecvRound(t)) && s.calls[t].conn in s.conns && 0 < s.calls[t].count
    ensures var s' := Apply(s, RecvRound(t));
      var c, side := s.calls[t].conn, s.calls[t].side;
      && Signalled(s.calls, s'.calls, t, c, side, s'.conns != s.conns)
      && c in s'.conns
      && (t in s'.calls ==> s'.conns == s.conns && SleepInv(s', s'.calls[t]))
  {
  }

  lemma RecvRoundKeepsSleep(s: State, t: Tid)
    requires Enabled(s, RecvRound(t)) && CallsInv(s) && ConnsInv(s) && SocksInv(s) && SleepsInv(s)
    ensures SleepsInv(Apply(s, RecvRound(t)))
  {
    var call := s.calls[t];
    assert CallInv(s, call);
    ConnOfSock(s, call.sock);
    RecvRoundEffect(s, t);
    RecvRoundSignals(s, t);
    var s' := Apply(s, RecvRound(t));
    forall u | u in s'.calls ensures SleepInv(s', s'.calls[u]) {
      if u != t {
        RoundKeepsSleep(s, s', t, call.conn, call.side, u);
      }
    }
  }

  /** Closing the last socket of a side signals every sleeper on the other side's buffer. */
  lemma ClosedKeepsSleep(s: State, s': State, c: ConnId, side: Side, u: Tid)
    requires SleepsInv(s) && Closed(s, s', c, side) && u in s.calls && u in s'.calls
    requires s.calls[u].conn in s'.conns ==> s.calls[u].conn in s.conns
    ensures SleepInv(s', s'.calls[u])
  {
    var call := s.calls[u];
    assert SleepInv(s, call);
    if call.conn in s.conns && call.conn in s'.conns && s'.calls[u] == call {
      if call.conn != c || call.Sending? || call.side == side {
        SleepFrame(call, s.conns[call.conn], s'.conns[call.conn]);
      }
    }
  }

  lemma CloseConnectedKeepsSleep(s: State, x: SockId)
    requires SocksInv(s) && ConnsInv(s) && SleepsInv(s) && Enabled(s, Close(x)) && s.socks[x].Connected?
    ensures SleepsInv(Apply(s, Close(x)))
  {
    CloseCounts(s, x);
    CloseCalls(s, x);
    forall u | u in Apply(s, Close(x)).calls ensures SleepInv(Apply(s, Close(x)), Apply(s, Close(x)).calls[u]) {
      ClosedKeepsSleep(s, Apply(s, Close(x)), s.socks[x].conn, s.socks[x].side, u);
    }
  }

  lemma CloseBoundKeepsSleep(s: State, x: SockId)
    requires Inv(s) && SleepsInv(s) && Enabled(s, Close(x)) && s.socks[x].Bound?
    ensures SleepsInv(Apply(s, Close(x)))
  {
    CloseBoundEffect(s, x);
    var s' := Apply(s, Close(x));
    forall u | u in s'.calls ensures SleepInv(s', s'.calls[u]) {
      assert SleepInv(s, s.calls[u]);
    }
  }

  lemma SleepKept(s: State, s': State, u: Tid)
    requires SleepsInv(s) && u in s.calls && s'.calls == s.calls && s.calls[u].conn in s.conns
    requires s.calls[u].conn in s'.conns ==> ConnKept(s.conns[s.calls[u].conn], s'.conns[s.calls[u].conn])
    ensures SleepInv(s', s'.calls[u])
  {
    assert SleepInv(s, s.calls[u]);
  }

  /** The remaining steps keep buffers, signals and references. */
  lemma QuietStepKeepsSleep(s: State, step: Step)
    requires CallsInv(s) && SocksInv(s) && ConnsInv(s) && SleepsInv(s)
    requires Enabled(s, step) && !step.Close? && !IsCallStep(step)
    ensures SleepsInv(Apply(s, step))
  {
    var s' := Apply(s, step);
    QuietCalls(s, step);
    forall u | u in s'.calls ensures SleepInv(s', s'.calls[u]) {
      assert CallInv(s, s.calls[u]);
      ConnOfSock(s, s.calls[u].sock);
      if s.calls[u].conn in s'.conns {
        QuietStepKeepsConn(s, step, s.calls[u].conn);
      }
      SleepKept(s, s', u);
    }
  }

  lemma QuietStepKeepsConn(s: State, step: Step, c: ConnId)
    requires Enabled(s, step) && !step.Close? && !IsCallStep(step)
    requires c in s.conns && c in Apply(s, step).conns
    ensures ConnKept(s.conns[c], Apply(s, step).conns[c])
  {
    if step.Accept? || step.Dup? {
      DataAfterJoin(s, step, c);
    }
  }

  /** A call that begins or wakes up does not sleep, and nothing changes for the others. */
  lemma CallKeepsSleep(s: State, step: Step)
    requires Inv(s) && SleepsInv(s) && Enabled(s, step) && (step.SendCall? || step.RecvCall? || step.WakeUp?)
    ensures SleepsInv(Apply(s, step))
  {
    var s' := Apply(s, step);
    CallStepShape(s, step);
    CallStepStores(s, step);
    forall u | u in s'.calls ensures SleepInv(s', s'.calls[u]) {
      if u != step.t {
        assert SleepInv(s, s.calls[u]);
        if s.calls[u].conn in s.conns {
          SleepFrame(s.calls[u], s.conns[s.calls[u].conn], s'.conns[s.calls[u].conn]);
        }
      }
    }
  }

  lemma CallStepStores(s: State, step: Step)
    requires ConnsInv(s) && SocksInv(s) && Enabled(s, step) && (step.SendCall? || step.RecvCall? || step.WakeUp?)
    ensures var s' := Apply(s, step);
      && (forall u :: u in s'.calls && u != step.t ==> u in s.calls && s'.calls[u] == s.calls[u])
      && (step.t in s'.calls ==> !s'.calls[step.t].asleep)
      && forall c, side :: c in s.conns && c in s'.conns ==> s'.conns[c].Get(side).stored == s.conns[c].Get(side).stored
  {
    if step.SendCall? {
      ConnOfSock(s, step.sock);
    }
  }

  lemma StepKeepsSleep(s: State, step: Step)
    requires Inv(s) && SleepsInv(s) && Enabled(s, step)
    ensures SleepsInv(Apply(s, step))
  {
    match step
    case SendRound(t) => SendRoundKeepsSleep(s, t);
    case RecvRound(t) => RecvRoundKeepsSleep(s, t);
    case SendCall(_, _, _) => CallKeepsSleep(s, step);
    case RecvCall(_, _, _, _) => CallKeepsSleep(s, step);
    case WakeUp(_) => CallKeepsSleep(s, step);
    case Close(x) =>
      match s.socks[x] {
        case Connected(_, _) => CloseConnectedKeepsSleep(s, x);
        case Bound(_) => CloseBoundKeepsSleep(s, x);
        case Plain =>
      }
    case _ => QuietStepKeepsSleep(s, step);
  }

  // ---------- theorems over every run ----------

  lemma {:induction false} ReachableStreams(s: State, steps: seq<Step>)
    requires Init(s) && Exec(s, steps).Some?
    ensures var s' := Exec(s, steps).value; Inv(s') && StreamsInv(s') && SleepsInv(s')
  {
    ReachableInv(s, steps);
    if steps != [] {
      var m := Exec(s, steps[..|steps| - 1]).value;
      ReachableStreams(s, steps[..|steps| - 1]);
      StepKeepsStreams(m, steps[|steps| - 1]);
      StepKeepsSleep(m, steps[|steps| - 1]);
    }
  }

  /**
   Stream integrity: what one side received, then what its buffer holds, is what was accepted for it.
   If no two sends to it overlapped, that is a prefix of all data offered, and all of it once no send
   is in progress and the side still has a socket.
   */
  lemma StreamIntegrity(s: State, steps: seq<Step>, s': State, c: ConnId, side: Side)
    requires Init(s) && Exec(s, steps) == Some(s') && c in s'.conns
    ensures var h := s'.conns[c].Get(side);
      && h.received + h.stored == h.accepted
      && (h.exclusive ==> h.accepted <= h.offered)
      && (h.exclusive && 0 < h.refcount && NobodySends(s'.calls, c, side) ==> h.received + h.stored == h.offered)
  {
    ReachableStreams(s, steps);
    HalfOf(s', c, side);
  }

  /** A blocked sender has written a prefix of its data; exactly the rest is missing from the stream. */
  lemma BlockedSenderMissesItsRest(s: State, steps: seq<Step>, s': State, t: Tid)
    requires Init(s) && Exec(s, steps) == Some(s') && t in s'.calls && s'.calls[t].Sending?
    ensures var call := s'.calls[t];
      && call.conn in s'.conns && call.written <= |call.data|
      && var h := s'.conns[call.conn].Get(call.side);
         h.exclusive && 0 < h.refcount ==> h.offered == h.received + h.stored + call.data[call.written..]
  {
    ReachableStreams(s, steps);
    var call := s'.calls[t];
    assert CallInv(s', call);
    ConnOfSock(s', call.sock);
    HalfOf(s', call.conn, call.side);
    assert SendsTo(s'.calls[t], call.conn, call.side);
  }

  /** Why a call sleeps with no signal pending. */
  lemma SleepersHaveReason(s: State, steps: seq<Step>, s': State, t: Tid)
    requires Init(s) && Exec(s, steps) == Some(s') && t in s'.calls
    requires s'.calls[t].asleep && !s'.calls[t].signalled
    ensures var call := s'.calls[t];
      && call.conn in s'.conns
      && var conn := s'.conns[call.conn];
         if call.Sending? then |conn.Get(call.side).stored| == CAPACITY && call.written < |call.data|
         else
          && conn.Get(call.side).stored == []
          && 0 < conn.Get(Other(call.side)).refcount
  {
    ReachableStreams(s, steps);
    assert CallInv(s', s'.calls[t]);
    ConnOfSock(s', s'.calls[t].sock);
    assert SleepInv(s', s'.calls[t]);
  }

  /** A receive on a nonblocking socket, or with the flag for it, never sleeps. */
  lemma NonblockingNeverSleeps(s: State, steps: seq<Step>, s': State, t: Tid)
    requires Init(s) && Exec(s, steps) == Some(s') && t in s'.calls && s'.calls[t].Receiving? && !s'.calls[t].block
    ensures !s'.calls[t].asleep
  {
    ReachableStreams(s, steps);
    assert CallInv(s', s'.calls[t]);
    ConnOfSock(s', s'.calls[t].sock);
    assert SleepInv(s', s'.calls[t]);
  }

  // ---------- what a round of a call does ----------

  /**
   A round of a send call.  It returns EPIPE exactly if the receiving side has no reference, and the length
   of the data exactly if the free space takes all of the rest; otherwise it sleeps.  What fits is appended
   to the stream.
   */
  lemma SendRoundOutcome(s: State, steps: seq<Step>, m: State, t: Tid)
    requires Init(s) && Exec(s, steps) == Some(m) && Enabled(m, SendRound(t))
    ensures var call, m' := m.calls[t], Apply(m, SendRound(t));
      && call.conn in m.conns && call.written <= |call.data| && call.conn in m'.conns
      && var h, h' := m.conns[call.conn].Get(call.side), m'.conns[call.conn].Get(call.side);
         var rest, free := call.data[call.written..], CAPACITY - |h.stored|;
         && 0 <= free
         && (Send(m, t) == BrokenPipe <==> h.refcount == 0)
         && (Send(m, t) == Sent(|call.data|) <==> h.refcount != 0 && |rest| <= free)
         && (Send(m, t) == Blocked <==> h.refcount != 0 && free < |rest|)
         && (t in m'.calls <==> Send(m, t) == Blocked)
         && h'.accepted == h.accepted + (if h.refcount == 0 then [] else rest[..Min(|rest|, free)])
         && h'.received == h.received
  {
    ReachableInv(s, steps);
    assert CallInv(m, m.calls[t]);
    ConnOfSock(m, m.calls[t].sock);
    SendRoundEffect(m, t);
  }

  /**
   A send sleeps exactly if its peer side is referenced and the free space is less than the rest of its
   data, whatever flags the socket or the call has.
   */
  lemma SendSleepsExactly(s: State, steps: seq<Step>, m: State, t: Tid)
    requires Init(s) && Exec(s, steps) == Some(m) && Enabled(m, SendRound(t))
    ensures var call, m' := m.calls[t], Apply(m, SendRound(t));
      && call.conn in m.conns && call.written <= |call.data|
      && var h := m.conns[call.conn].Get(call.side);
         && (t in m'.calls <==> h.refcount != 0 && CAPACITY - |h.stored| < |call.data| - call.written)
         && (t in m'.calls ==> m'.calls[t].asleep)
  {
    ReachableInv(s, steps);
    assert CallInv(m, m.calls[t]);
    ConnOfSock(m, m.calls[t].sock);
    SendRoundEffect(m, t);
  }

  /**
   A round of a receive call.  It sleeps exactly if the buffer is empty, the other side is referenced and
   the call blocks; it fails with EAGAIN exactly if it does not block then; it returns 0 exactly if the
   buffer is empty and the other side has no reference; otherwise it returns the number of bytes by which
   the received stream grows, which are the first of the buffer.
   */
  lemma RecvRoundOutcome(s: State, steps: seq<Step>, m: State, t: Tid)
    requires Init(s) && Exec(s, steps) == Some(m) && Enabled(m, RecvRound(t))
    ensures var call, m' := m.calls[t], Apply(m, RecvRound(t));
      && call.conn in m.conns && call.conn in m'.conns
      && var conn := m.conns[call.conn];
         var h, h' := conn.Get(call.side), m'.conns[call.conn].Get(call.side);
         var referenced, n := conn.Get(Other(call.side)).refcount != 0, |h'.received| - |h.received|;
         && (Receive(m, t) == Wait <==> h.stored == [] && referenced && call.block)
         && (Receive(m, t) == TryAgain <==> h.stored == [] && referenced && !call.block)
         && (Receive(m, t) == EndOfStream <==> h.stored == [] && !referenced)
         && (h.stored != [] ==> Receive(m, t) == Data(n) && 0 < n)
         && (t in m'.calls <==> Receive(m, t) == Wait)
         && (t in m'.calls ==> m'.calls[t] == call.(asleep := true, signalled := false))
         && h'.received == h.received + h.stored[..Min(call.count, |h.stored|)]
         && h'.accepted == h.accepted
  {
    ReachableInv(s, steps);
    assert CallInv(m, m.calls[t]);
    ConnOfSock(m, m.calls[t].sock);
    RecvRoundEffect(m, t);
    RecvRoundCallAfter(m, t);
  }

  lemma RecvRoundCallAfter(m: State, t: Tid)
    requires Enabled(m, RecvRound(t)) && m.calls[t].conn in m.conns
    ensures var m' := Apply(m, RecvRound(t));
      && (t in m'.calls <==> Receive(m, t) == Wait)
      && (t in m'.calls ==> m'.calls[t] == m.calls[t].(asleep := true, signalled := false))
  {
  }

  /** The last call that the thread began. */
  function LastCall(steps: seq<Step>, t: Tid): Option<Step> {
    if steps == [] then None else
      var step := steps[|steps| - 1];
      if (step.SendCall? || step.RecvCall?) && step.t == t then Some(step) else LastCall(steps[..|steps| - 1], t)
  }

  /** The call in progress is the one that the thread asked for. */
  predicate AsRequested(call: Call, t: Tid, last: Option<Step>) {
    if call.Sending? then last == Some(SendCall(t, call.sock, call.data))
    else last == Some(RecvCall(t, call.sock, call.count, call.block))
  }

  predicate SameRequest(was: Call, now: Call) {
    && was.Sending? == now.Sending? && was.sock == now.sock
    && (if was.Sending? then was.data == now.data else was.count == now.count && was.block == now.block)
  }

  predicate SameRequests(was: map<Tid, Call>, now: map<Tid, Call>) {
    forall t :: t in now ==> t in was && SameRequest(was[t], now[t])
  }

  lemma SendRoundKeepsRequests(s: State, u: Tid)
    requires Enabled(s, SendRound(u))
    ensures SameRequests(s.calls, Apply(s, SendRound(u)).calls)
  {
  }

  lemma RecvRoundKeepsRequests(s: State, u: Tid)
    requires Enabled(s, RecvRound(u))
    ensures SameRequests(s.calls, Apply(s, RecvRound(u)).calls)
  {
  }

  lemma OtherStepKeepsRequests(s: State, step: Step)
    requires Enabled(s, step) && !IsCallStep(step)
    ensures SameRequests(s.calls, Apply(s, step).calls)
  {
    if step.Close? {
      CloseCalls(s, step.sock);
    } else {
      QuietCalls(s, step);
    }
  }

  lemma CallBegins(s: State, step: Step, t: Tid)
    requires Inv(s) && Enabled(s, step) && (step.SendCall? || step.RecvCall?) && t in Apply(s, step).calls
    ensures if t == step.t then AsRequested(Apply(s, step).calls[t], t, Some(step))
      else t in s.calls && Apply(s, step).calls[t] == s.calls[t]
  {
    ConnOfSock(s, step.sock);
  }

  lemma StepKeepsRequests(s: State, step: Step)
    requires Enabled(s, step) && !step.SendCall? && !step.RecvCall?
    ensures SameRequests(s.calls, Apply(s, step).calls)
  {
    if step.SendRound? {
      SendRoundKeepsRequests(s, step.t);
    } else if step.RecvRound? {
      RecvRoundKeepsRequests(s, step.t);
    } else if !step.WakeUp? {
      OtherStepKeepsRequests(s, step);
    }
  }

  /** In every run, a call in progress has the socket, data, count and blocking mode of its thread's last request. */
  lemma {:induction false} CallsAreRequests(s: State, steps: seq<Step>, t: Tid)
    requires Init(s) && Exec(s, steps).Some? && t in Exec(s, steps).value.calls
    ensures AsRequested(Exec(s, steps).value.calls[t], t, LastCall(steps, t))
  {
    var before, step := steps[..|steps| - 1], steps[|steps| - 1];
    var m := Exec(s, before).value;
    ReachableInv(s, before);
    if step.SendCall? || step.RecvCall? {
      CallBegins(m, step, t);
    } else {
      StepKeepsRequests(m, step);
    }
    if t in m.calls {
      CallsAreRequests(s, before, t);
    }
  }

  /** A sender and a receiver never wait for each other on one buffer. */
  lemma NoMutualWait(s: State, steps: seq<Step>, s': State, t: Tid, u: Tid)
    requires Init(s) && Exec(s, steps) == Some(s') && t in s'.calls && u in s'.calls
    requires s'.calls[t].Sending? && s'.calls[u].Receiving?
    requires s'.calls[t].conn == s'.calls[u].conn && s'.calls[t].side == s'.calls[u].side
    requires s'.calls[t].asleep && s'.calls[u].asleep
    ensures s'.calls[t].signalled || s'.calls[u].signalled
  {
    if !s'.calls[t].signalled && !s'.calls[u].signalled {
      SleepersHaveReason(s, steps, s', t);
      SleepersHaveReason(s, steps, s', u);
    }
  }

  // ---------- end of stream ----------

  /** Nothing is left to read on the side, and no socket is left that could send to it. */
  predicate Ended(s: State, c: ConnId, side: Side)
    requires c in s.conns
  {
    s.conns[c].Get(Other(side)).refcount == 0 && s.conns[c].Get(side).stored == []
  }

  lemma SendersHoldReferences(s: State, t: Tid)
    requires Inv(s) && t in s.calls && s.calls[t].Sending?
    ensures var call := s.calls[t]; call.conn in s.conns && 0 < s.conns[call.conn].Get(Other(call.side)).refcount
  {
    assert CallInv(s, s.calls[t]);
    ConnOfSock(s, s.calls[t].sock);
  }

  /** The buffer of a half without senders that is empty stays empty. */
  lemma EmptyAfterSendRound(s: State, t: Tid, c: ConnId, side: Side)
    requires CallsInv(s) && ConnsInv(s) && SocksInv(s) && Enabled(s, SendRound(t))
    requires c in s.conns && s.conns[c].Get(side).stored == [] && NobodySends(s.calls, c, side)
    ensures c in Apply(s, SendRound(t)).conns && Apply(s, SendRound(t)).conns[c].Get(side).stored == []
  {
    assert CallInv(s, s.calls[t]);
    ConnOfSock(s, s.calls[t].sock);
    SendRoundEffect(s, t);
  }

  lemma EmptyAfterRecvRound(s: State, t: Tid, c: ConnId, side: Side)
    requires CallsInv(s) && ConnsInv(s) && SocksInv(s) && Enabled(s, RecvRound(t))
    requires c in s.conns && s.conns[c].Get(side).stored == []
    ensures c in Apply(s, RecvRound(t)).conns && Apply(s, RecvRound(t)).conns[c].Get(side).stored == []
  {
    assert CallInv(s, s.calls[t]);
    ConnOfSock(s, s.calls[t].sock);
    RecvRoundEffect(s, t);
  }

  lemma EmptyAfterCall(s: State, step: Step, c: ConnId, side: Side)
    requires ConnsInv(s) && SocksInv(s) && Enabled(s, step) && (step.SendCall? || step.RecvCall? || step.WakeUp?)
    requires c in s.conns && c in Apply(s, step).conns && s.conns[c].Get(side).stored == []
    ensures Apply(s, step).conns[c].Get(side).stored == []
  {
    if step.SendCall? {
      ConnOfSock(s, step.sock);
    }
  }

  lemma EndedMeansNoSender(s: State, c: ConnId, side: Side)
    requires Inv(s) && c in s.conns && Ended(s, c, side)
    ensures NobodySends(s.calls, c, side)
  {
    forall t | t in s.calls ensures !SendsTo(s.calls[t], c, side) {
      if s.calls[t].Sending? {
        SendersHoldReferences(s, t);
      }
    }
  }

  lemma EndedStays(s: State, step: Step, c: ConnId, side: Side)
    requires Inv(s) && Enabled(s, step) && c in s.conns && Ended(s, c, side) && c in Apply(s, step).conns
    ensures Ended(Apply(s, step), c, side)
  {
    ZeroIsFinalStep(s, step, c, Other(side));
    if step.SendRound? {
      EndedMeansNoSender(s, c, side);
      EmptyAfterSendRound(s, step.t, c, side);
    } else if step.RecvRound? {
      EmptyAfterRecvRound(s, step.t, c, side);
    } else if IsCallStep(step) {
      EmptyAfterCall(s, step, c, side);
    } else {
      DataUnchanged(s, step, c);
    }
  }

  lemma {:induction false} EndedForever(s: State, later: seq<Step>, c: ConnId, side: Side)
    requires Inv(s) && c in s.conns && Ended(s, c, side) && Exec(s, later).Some?
    ensures var s' := Exec(s, later).value;
      && Inv(s') && (c in s'.conns || c in s'.freed) && (c in s'.conns ==> Ended(s', c, side))
  {
    if later != [] {
      var m, step := Exec(s, later[..|later| - 1]).value, later[|later| - 1];
      EndedForever(s, later[..|later| - 1], c, side);
      StepKeepsInv(m, step);
      if c in m.conns {
        ZeroIsFinalStep(m, step, c, side);
        if c in Apply(m, step).conns {
          EndedStays(m, step, c, side);
        }
      } else {
        FreedStays(m, step, c);
      }
    }
  }

  /** A receive returns 0 only when all accepted bytes were received and the peer side has no reference. */
  lemma EndOfStreamMeans(s: State, steps: seq<Step>, m: State, t: Tid)
    requires Init(s) && Exec(s, steps) == Some(m) && Enabled(m, RecvRound(t))
    requires m.calls[t].conn in m.conns && Receive(m, t) == EndOfStream
    ensures Ended(m, m.calls[t].conn, m.calls[t].side)
    ensures var h := m.conns[m.calls[t].conn].Get(m.calls[t].side); h.received == h.accepted
  {
    ReachableStreams(s, steps);
    assert CallInv(m, m.calls[t]);
    HalfOf(m, m.calls[t].conn, m.calls[t].side);
  }

  lemma EndedMeansZero(s: State, u: Tid)
    requires Inv(s) && Enabled(s, RecvRound(u))
    requires s.calls[u].conn in s.conns ==> Ended(s, s.calls[u].conn, s.calls[u].side)
    ensures s.calls[u].conn in s.conns && Receive(s, u) == EndOfStream
  {
    assert CallInv(s, s.calls[u]);
    ConnOfSock(s, s.calls[u].sock);
  }

  /** End of stream is final: every later receive on the side returns 0 as well. */
  lemma EndOfStreamIsFinal(s: State, steps: seq<Step>, m: State, t: Tid, later: seq<Step>, s': State, u: Tid)
    requires Init(s) && Exec(s, steps) == Some(m) && Exec(m, later) == Some(s')
    requires Enabled(m, RecvRound(t)) && m.calls[t].conn in m.conns && Receive(m, t) == EndOfStream
    requires Enabled(s', RecvRound(u)) && s'.calls[u].conn == m.calls[t].conn && s'.calls[u].side == m.calls[t].side
    ensures s'.calls[u].conn in s'.conns && Receive(s', u) == EndOfStream
  {
    ReachableInv(s, steps);
    EndOfStreamMeans(s, steps, m, t);
    EndedForever(m, later, m.calls[t].conn, m.calls[t].side);
    EndedMeansZero(s', u);
  }
}
