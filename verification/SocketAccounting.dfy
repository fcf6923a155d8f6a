/**
 Reference counts and lifetimes of the connections of Sockets.dfy.

 Over every run the counts equal the registered sockets, plus one while the connection is pending in
 a backlog, and each published connection is freed at most once, when its last reference goes.  The
 steps that fault are described exactly.
 */
module SocketAccounting {
  import opened Common
  import opened Sockets
  import opened RingBuffer

  // ---------- the invariant ----------

  function Registered(h: Half): nat
    requires |h.slots| == SLOTS
  {
    (if h.slots[0] == 0 then 0 else 1) + (if h.slots[1] == 0 then 0 else 1)
  }

  predicate SlotsOk(h: Half) {
    |h.slots| == SLOTS && (h.slots[0] == h.slots[1] ==> h.slots[0] == 0)
  }

  predicate ConnCounts(conn: Conn) {
    && SlotsOk(conn.client) && SlotsOk(conn.server)
    && conn.client.refcount == Registered(conn.client)
    && conn.server.refcount == Registered(conn.server) + (if conn.pending.Some? then 1 else 0)
    && (conn.pending.Some? ==> Registered(conn.server) == 0)
    && 0 < conn.client.refcount + conn.server.refcount
    && |conn.client.stored| <= CAPACITY && |conn.server.stored| <= CAPACITY
  }

  /** The sockets in the slots are open and connected to this side. */
  predicate SlotSocks(socks: map<SockId, Sock>, c: ConnId, side: Side, h: Half) {
    forall x: SockId :: x in h.slots ==> x in socks && socks[x] == Connected(c, side)
  }

  predicate ConnInv(s: State, c: ConnId, conn: Conn) {
    && ConnCounts(conn)
    && SlotSocks(s.socks, c, Client, conn.client) && SlotSocks(s.socks, c, Server, conn.server)
    && (conn.pending.Some? ==> conn.pending.value in s.ports && c in s.ports[conn.pending.value].backlog)
  }

  predicate SockInv(s: State, x: SockId, sock: Sock) {
    match sock
    case Plain => true
    case Bound(port) => port in s.ports && s.ports[port].owner == x
    case Connected(c, side) => c in s.conns && x in s.conns[c].Get(side).slots
  }

  /** The connections in a backlog are distinct, live, and know that they are pending there. */
  predicate PortInv(s: State, port: Port, listener: Listener) {
    && |listener.backlog| <= listener.capacity
    && (forall i: nat, j: nat :: i < j < |listener.backlog| ==> listener.backlog[i] != listener.backlog[j])
    && (forall c :: c in listener.backlog ==> c in s.conns && s.conns[c].pending == Some(port))
  }

  predicate FreedInv(s: State) {
    && (forall i: nat, j: nat :: i < j < |s.freed| ==> s.freed[i] != s.freed[j])
    && (forall c :: c in s.freed ==> c !in s.conns)
  }

  /** A call in progress belongs to an open socket and uses its connection. */
  predicate CallInv(s: State, call: Call) {
    && call.sock in s.socks
    && s.socks[call.sock] == Connected(call.conn, if call.Sending? then Other(call.side) else call.side)
    && (if call.Sending? then call.written <= |call.data| else 0 < call.count)
  }

  predicate ConnsInv(s: State) {
    forall c :: c in s.conns ==> ConnInv(s, c, s.conns[c])
  }

  predicate SocksInv(s: State) {
    forall x :: x in s.socks ==> SockInv(s, x, s.socks[x])
  }

  predicate PortsInv(s: State) {
    forall p :: p in s.ports ==> PortInv(s, p, s.ports[p])
  }

  predicate CallsInv(s: State) {
    forall t :: t in s.calls ==> CallInv(s, s.calls[t])
  }

  predicate Inv(s: State) {
    && ConnsInv(s) && SocksInv(s) && PortsInv(s) && FreedInv(s) && CallsInv(s)
  }

  // ---------- one lemma per kind of step ----------

  predicate KeepsConnected(s: State, s': State) {
    forall x :: x in s.socks && s.socks[x].Connected? ==> x in s'.socks && s'.socks[x] == s.socks[x]
  }

  predicate BacklogsKept(s: State, s': State) {
    forall p :: p in s.ports && s.ports[p].backlog != [] ==>
      p in s'.ports && s.ports[p].backlog <= s'.ports[p].backlog
  }

  lemma CallsFrame(s: State, s': State)
    requires CallsInv(s) && s'.calls == s.calls && KeepsConnected(s, s')
    ensures CallsInv(s')
  {
    forall t | t in s'.calls ensures CallInv(s', s'.calls[t]) {
      assert CallInv(s, s.calls[t]);
    }
  }

  lemma ConnFrame(s: State, s': State, c: ConnId)
    requires c in s.conns && ConnInv(s, c, s.conns[c]) && KeepsConnected(s, s')
    requires BacklogsKept(s, s')
    ensures ConnInv(s', c, s.conns[c])
  {
  }

  /** Steps that open, bind or listen. */
  lemma SetupKeepsInv(s: State, step: Step)
    requires Inv(s) && Enabled(s, step) && (step.Open? || step.Bind? || step.Listen?)
    ensures Inv(Apply(s, step))
  {
    SetupKeepsRest(s, step);
    CallsFrame(s, Apply(s, step));
    ConnsFrame(s, Apply(s, step));
    SetupKeepsSocks(s, step);
    SetupKeepsPorts(s, step);
  }

  lemma SetupKeepsRest(s: State, step: Step)
    requires PortsInv(s) && Enabled(s, step) && (step.Open? || step.Bind? || step.Listen?)
    ensures var s' := Apply(s, step);
      && s'.conns == s.conns && s'.freed == s.freed && s'.calls == s.calls && KeepsConnected(s, s')
      && BacklogsKept(s, s')
  {
  }

  lemma ConnsFrame(s: State, s': State)
    requires ConnsInv(s) && s'.conns == s.conns && KeepsConnected(s, s')
    requires BacklogsKept(s, s')
    ensures ConnsInv(s')
  {
    forall c | c in s'.conns ensures ConnInv(s', c, s'.conns[c]) {
      ConnFrame(s, s', c);
    }
  }

  lemma SetupKeepsSocks(s: State, step: Step)
    requires Inv(s) && Enabled(s, step) && (step.Open? || step.Bind? || step.Listen?)
    ensures SocksInv(Apply(s, step))
  {
    assert step.Listen? ==> SockInv(s, step.sock, s.socks[step.sock]);
  }

  lemma SetupKeepsPorts(s: State, step: Step)
    requires Inv(s) && Enabled(s, step) && (step.Open? || step.Bind? || step.Listen?)
    ensures PortsInv(Apply(s, step))
  {
  }

  lemma ConnectKeepsInv(s: State, x: SockId, port: Port, c: ConnId)
    requires Inv(s) && Enabled(s, Connect(x, port, c))
    ensures Inv(Apply(s, Connect(x, port, c)))
  {
    var s' := Apply(s, Connect(x, port, c));
    if s' != s {
      ConnectKeepsRest(s, x, port, c);
      CallsFrame(s, s');
      ConnectKeepsConns(s, x, port, c);
      ConnectKeepsSocks(s, x, port, c);
      ConnectKeepsPorts(s, x, port, c);
    }
  }

  lemma ConnectKeepsRest(s: State, x: SockId, port: Port, c: ConnId)
    requires Enabled(s, Connect(x, port, c))
    ensures var s' := Apply(s, Connect(x, port, c));
      && s'.status == Running && s'.calls == s.calls && s'.freed == s.freed && KeepsConnected(s, s')
      && (forall d :: d in s'.conns ==> d == c || d in s.conns)
  {
  }

  lemma ConnectKeepsConns(s: State, x: SockId, port: Port, c: ConnId)
    requires ConnsInv(s) && Enabled(s, Connect(x, port, c))
    ensures ConnsInv(Apply(s, Connect(x, port, c)))
  {
    var s' := Apply(s, Connect(x, port, c));
    if s' != s {
      forall d | d in s.conns ensures ConnInv(s', d, s.conns[d]) {
        ConnFrame(s, s', d);
      }
    }
  }

  lemma ConnectKeepsSocks(s: State, x: SockId, port: Port, c: ConnId)
    requires Inv(s) && Enabled(s, Connect(x, port, c))
    ensures SocksInv(Apply(s, Connect(x, port, c)))
  {
  }

  lemma ConnectKeepsPorts(s: State, x: SockId, port: Port, c: ConnId)
    requires Inv(s) && Enabled(s, Connect(x, port, c))
    ensures PortsInv(Apply(s, Connect(x, port, c)))
  {
  }

  /** Registering a socket that is new in a half with a free slot. */
  lemma AddSockOk(h: Half, x: SockId, increment: bool)
    requires SlotsOk(h) && x !in h.slots
    ensures match AddSock(h, x, increment)
      case None => Registered(h) == SLOTS
      case Some(h') =>
        && SlotsOk(h') && Registered(h') == Registered(h) + 1
        && h'.refcount == h.refcount + (if increment then 1 else 0)
        && h'.stored == h.stored
        && forall y: SockId :: y in h'.slots <==> y in h.slots || y == x
  {
  }

  lemma RemoveSockOk(h: Half, x: SockId)
    requires SlotsOk(h) && x in h.slots && 0 < h.refcount
    ensures match RemoveSock(h, x)
      case None => false
      case Some(h') =>
        && SlotsOk(h') && Registered(h') == Registered(h) - 1
        && h'.refcount == h.refcount - 1 && h'.stored == h.stored
        && forall y: SockId :: y in h'.slots <==> y in h.slots && y != x
  {
  }

  // ---------- accept and dup ----------

  lemma NewSockInNoSlot(s: State, y: SockId, c: ConnId, side: Side)
    requires ConnsInv(s) && c in s.conns && y !in s.socks
    ensures SlotsOk(s.conns[c].Get(side)) && y !in s.conns[c].Get(side).slots
  {
    assert ConnInv(s, c, s.conns[c]);
  }

  /** s' is s with the new socket y registered on one side of connection c. */
  ghost predicate Joined(s: State, s': State, y: SockId, c: ConnId, side: Side) {
    && y !in s.socks && c in s.conns
    && s'.socks == s.socks[y := Connected(c, side)]
    && s'.conns.Keys == s.conns.Keys
    && (forall d :: d in s.conns && d != c ==> s'.conns[d] == s.conns[d])
    && s'.conns[c].Get(Other(side)) == s.conns[c].Get(Other(side))
    && (forall z: SockId :: z in s'.conns[c].Get(side).slots <==> z in s.conns[c].Get(side).slots || z == y)
    && (forall p :: p in s.ports ==> p in s'.ports && s'.ports[p].owner == s.ports[p].owner)
  }

  lemma JoinedKeepsSocks(s: State, s': State, y: SockId, c: ConnId, side: Side)
    requires SocksInv(s) && Joined(s, s', y, c, side)
    ensures SocksInv(s')
  {
    forall z | z in s'.socks ensures SockInv(s', z, s'.socks[z]) {
      if z != y {
        assert SockInv(s, z, s.socks[z]);
      }
    }
  }

  lemma JoinedSlotSocks(s: State, s': State, y: SockId, c: ConnId, side: Side)
    requires Joined(s, s', y, c, side) && ConnInv(s, c, s.conns[c])
    ensures SlotSocks(s'.socks, c, Client, s'.conns[c].client) && SlotSocks(s'.socks, c, Server, s'.conns[c].server)
  {
  }

  lemma PortsFrame(s: State, s': State)
    requires PortsInv(s) && s'.ports == s.ports
    requires forall c :: c in s.conns && s.conns[c].pending.Some? ==>
      c in s'.conns && s'.conns[c].pending == s.conns[c].pending
    ensures PortsInv(s')
  {
    forall p | p in s'.ports ensures PortInv(s', p, s'.ports[p]) {
      assert PortInv(s, p, s.ports[p]);
    }
  }

  lemma DupKeepsInv(s: State, x: SockId, y: SockId)
    requires Inv(s) && Enabled(s, Dup(x, y))
    ensures Inv(Apply(s, Dup(x, y)))
  {
    var s' := Apply(s, Dup(x, y));
    var c, side := s.socks[x].conn, s.socks[x].side;
    DupEffect(s, x, y);
    if s'.status == Running {
      CallsFrame(s, s');
      JoinedKeepsSocks(s, s', y, c, side);
      JoinedSlotSocks(s, s', y, c, side);
      PortsFrame(s, s');
      DupKeepsConns(s, s', y, c, side);
    }
  }

  lemma DupEffect(s: State, x: SockId, y: SockId)
    requires SocksInv(s) && ConnsInv(s) && Enabled(s, Dup(x, y))
    ensures var s' := Apply(s, Dup(x, y));
      var c, side := s.socks[x].conn, s.socks[x].side;
      && c in s.conns && ConnInv(s, c, s.conns[c])
      && if Registered(s.conns[c].Get(side)) == SLOTS then s' == s.(status := Aborted)
         else
          && Joined(s, s', y, c, side) && s' == s.(socks := s'.socks, conns := s'.conns)
          && ConnCounts(s'.conns[c]) && s'.conns[c].pending == s.conns[c].pending
  {
    var c, side := s.socks[x].conn, s.socks[x].side;
    assert SockInv(s, x, s.socks[x]);
    NewSockInNoSlot(s, y, c, side);
    SlotMeansRegistered(s.conns[c].Get(side), x);
    AddedCounts(s.conns[c], side, y);
  }

  /** Counting in a further socket on a side that already has one. */
  lemma AddedCounts(conn: Conn, side: Side, y: SockId)
    requires ConnCounts(conn) && y !in conn.Get(side).slots && 0 < Registered(conn.Get(side))
    ensures match AddSock(conn.Get(side), y, true)
      case None => Registered(conn.Get(side)) == SLOTS
      case Some(h) =>
        && Registered(conn.Get(side)) != SLOTS && ConnCounts(conn.With(side, h))
        && forall z: SockId :: z in h.slots <==> z in conn.Get(side).slots || z == y
  {
    AddSockOk(conn.Get(side), y, true);
  }

  lemma SlotMeansRegistered(h: Half, x: SockId)
    requires SlotsOk(h) && x in h.slots
    ensures 0 < Registered(h)
  {
  }

  lemma DupKeepsConns(s: State, s': State, y: SockId, c: ConnId, side: Side)
    requires ConnsInv(s) && Joined(s, s', y, c, side) && s'.ports == s.ports
    requires ConnCounts(s'.conns[c]) && s'.conns[c].pending == s.conns[c].pending
    ensures ConnsInv(s')
  {
    forall d | d in s'.conns ensures ConnInv(s', d, s'.conns[d]) {
      assert ConnInv(s, d, s.conns[d]);
      if d == c {
        JoinedSlotSocks(s, s', y, c, side);
      } else {
        ConnFrame(s, s', d);
      }
    }
  }

  lemma AcceptKeepsInv(s: State, x: SockId, y: SockId)
    requires Inv(s) && Enabled(s, Accept(x, y))
    ensures Inv(Apply(s, Accept(x, y))) && Apply(s, Accept(x, y)).status == Running
  {
    var s' := Apply(s, Accept(x, y));
    AcceptEffect(s, x, y);
    if s' != s {
      var port := s.socks[x].port;
      var c := s.ports[port].backlog[0];
      CallsFrame(s, s');
      JoinedKeepsSocks(s, s', y, c, Server);
      AcceptKeepsConns(s, s', y, c, port);
      AcceptKeepsPorts(s, s', c, port);
    }
  }

  lemma AcceptEffect(s: State, x: SockId, y: SockId)
    requires SocksInv(s) && ConnsInv(s) && PortsInv(s) && Enabled(s, Accept(x, y))
    ensures var s' := Apply(s, Accept(x, y));
      var port := s.socks[x].port;
      && port in s.ports
      && if s.ports[port].backlog == [] then s' == s
         else
          var c := s.ports[port].backlog[0];
          && Joined(s, s', y, c, Server)
          && s' == s.(socks := s'.socks, conns := s'.conns, ports := s'.ports)
          && Unqueued(s, s', c, port)
  {
    assert SockInv(s, x, s.socks[x]);
    var port := s.socks[x].port;
    if s.ports[port].backlog != [] {
      var c := s.ports[port].backlog[0];
      assert PortInv(s, port, s.ports[port]) && ConnInv(s, c, s.conns[c]);
      NewSockInNoSlot(s, y, c, Server);
      AddSockOk(s.conns[c].server, y, false);
    }
  }

  /** s' is s with the oldest pending connection taken out of the backlog of a port. */
  predicate Unqueued(s: State, s': State, c: ConnId, port: Port) {
    && port in s.ports && s.ports[port].backlog != [] && c == s.ports[port].backlog[0]
    && s'.ports == s.ports[port := s.ports[port].(backlog := s.ports[port].backlog[1..])]
    && c in s'.conns && ConnCounts(s'.conns[c]) && s'.conns[c].pending == None
  }

  lemma PoppedOther(backlog: seq<ConnId>, d: ConnId)
    requires backlog != [] && d != backlog[0]
    ensures d in backlog <==> d in backlog[1..]
  {
    assert backlog == [backlog[0]] + backlog[1..];
  }

  lemma AcceptKeepsConns(s: State, s': State, y: SockId, c: ConnId, port: Port)
    requires ConnsInv(s) && Joined(s, s', y, c, Server) && Unqueued(s, s', c, port)
    ensures ConnsInv(s')
  {
    forall d | d in s'.conns ensures ConnInv(s', d, s'.conns[d]) {
      assert ConnInv(s, d, s.conns[d]);
      if d == c {
        JoinedSlotSocks(s, s', y, c, Server);
      } else {
        PoppedOther(s.ports[port].backlog, d);
      }
    }
  }

  lemma AcceptKeepsPorts(s: State, s': State, c: ConnId, port: Port)
    requires PortsInv(s) && Unqueued(s, s', c, port) && s'.conns.Keys == s.conns.Keys
    requires forall d :: d in s.conns && d != c ==> s'.conns[d] == s.conns[d]
    ensures PortsInv(s')
  {
    var backlog := s.ports[port].backlog;
    assert PortInv(s, port, s.ports[port]);
    forall p | p in s'.ports ensures PortInv(s', p, s'.ports[p]) {
      assert PortInv(s, p, s.ports[p]);
      if p == port {
        assert forall i: nat :: i < |backlog[1..]| ==> backlog[1..][i] == backlog[i + 1];
      }
    }
  }

  // ---------- close ----------

  lemma FreedMore(s: State, s': State, c: ConnId)
    requires FreedInv(s) && c in s.conns && s'.conns == s.conns - {c} && s'.freed == s.freed + [c]
    ensures FreedInv(s')
  {
  }

  /** s' is s without the open socket x, and with connection c changed or gone. */
  ghost predicate Left(s: State, s': State, x: SockId, c: ConnId, side: Side) {
    && x in s.socks && s.socks[x] == Connected(c, side) && c in s.conns
    && s'.socks == s.socks - {x} && s'.ports == s.ports
    && (forall d :: d != c ==> (d in s'.conns <==> d in s.conns))
    && (forall d :: d in s.conns && d != c ==> d in s'.conns && s'.conns[d] == s.conns[d])
    && SlotsOk(s.conns[c].client) && SlotsOk(s.conns[c].server)
    && (c in s'.conns ==>
      && ConnCounts(s'.conns[c]) && s'.conns[c].pending == s.conns[c].pending
      && s'.conns[c].Get(Other(side)) == s.conns[c].Get(Other(side))
      && forall z: SockId :: z in s'.conns[c].Get(side).slots <==> z in s.conns[c].Get(side).slots && z != x)
    && (c !in s'.conns ==>
      && s.conns[c].pending == None && Registered(s.conns[c].Get(Other(side))) == 0
      && Registered(s.conns[c].Get(side)) == 1)
  }

  lemma OnlyRegistered(h: Half, x: SockId, z: SockId)
    requires SlotsOk(h) && Registered(h) == 1 && x in h.slots && z in h.slots
    ensures x == z
  {
  }

  lemma LeftKeepsConns(s: State, s': State, x: SockId, c: ConnId, side: Side)
    requires ConnsInv(s) && Left(s, s', x, c, side)
    ensures ConnsInv(s')
  {
    forall d | d in s'.conns ensures ConnInv(s', d, s'.conns[d]) {
      assert d in s.conns && ConnInv(s, d, s.conns[d]);
    }
  }

  lemma LeftKeepsSocks(s: State, s': State, x: SockId, c: ConnId, side: Side)
    requires SocksInv(s) && Left(s, s', x, c, side)
    ensures SocksInv(s')
  {
    forall z | z in s'.socks ensures SockInv(s', z, s'.socks[z]) {
      assert SockInv(s, z, s.socks[z]) && SockInv(s, x, s.socks[x]);
      if c !in s'.conns && s.socks[z].Connected? && s.socks[z].conn == c {
        if s.socks[z].side == side {
          OnlyRegistered(s.conns[c].Get(side), x, z);
        } else {
          SlotMeansRegistered(s.conns[c].Get(Other(side)), z);
        }
        assert false;
      }
    }
  }

  lemma LeftKeepsPorts(s: State, s': State, x: SockId, c: ConnId, side: Side)
    requires PortsInv(s) && Left(s, s', x, c, side)
    ensures PortsInv(s')
  {
    forall p | p in s'.ports ensures PortInv(s', p, s'.ports[p]) {
      assert PortInv(s, p, s.ports[p]);
    }
  }

  /** Removing a registered socket keeps the counts right, or was the last reference. */
  lemma UnregisterCounts(conn: Conn, side: Side, x: SockId)
    requires ConnCounts(conn) && x in conn.Get(side).slots
    ensures RemoveSock(conn.Get(side), x).Some?
    ensures var h := RemoveSock(conn.Get(side), x).value;
      && (forall z: SockId :: z in h.slots <==> z in conn.Get(side).slots && z != x)
      && if h.refcount == 0 && conn.Get(Other(side)).refcount == 0
         then conn.pending == None && Registered(conn.Get(Other(side))) == 0 && Registered(conn.Get(side)) == 1
         else ConnCounts(conn.With(side, h))
  {
    SlotMeansRegistered(conn.Get(side), x);
    RemoveSockOk(conn.Get(side), x);
  }

  lemma CloseConnectedEffect(s: State, x: SockId)
    requires SocksInv(s) && ConnsInv(s) && Enabled(s, Close(x)) && s.socks[x].Connected?
    ensures var s' := Apply(s, Close(x));
      var c, side := s.socks[x].conn, s.socks[x].side;
      && s'.status == Running && Left(s, s', x, c, side)
      && (c in s'.conns ==> s'.conns.Keys == s.conns.Keys && s'.freed == s.freed)
      && (c !in s'.conns ==> s'.conns == s.conns - {c} && s'.freed == s.freed + [c])
      && (s'.calls == s.calls || s'.calls == Broadcast(s.calls, c, Other(side)))
  {
    var c, side := s.socks[x].conn, s.socks[x].side;
    assert SockInv(s, x, s.socks[x]);
    assert ConnInv(s, c, s.conns[c]);
    UnregisterCounts(s.conns[c], side, x);
  }

  /** s' is s after socket x of one side was closed, in terms of counts, buffers and calls. */
  ghost predicate Closed(s: State, s': State, c: ConnId, side: Side) {
    && c in s.conns
    && (c in s'.conns ==>
      && s'.conns[c].Get(side).refcount == s.conns[c].Get(side).refcount - 1
      && s'.conns[c].Get(side).stored == s.conns[c].Get(side).stored
      && s'.conns[c].Get(Other(side)) == s.conns[c].Get(Other(side))
      && s'.calls == if s.conns[c].Get(side).refcount == 1 then Broadcast(s.calls, c, Other(side)) else s.calls)
    && (c !in s'.conns ==> s'.calls == s.calls)
    && (forall d :: d != c ==> (d in s'.conns <==> d in s.conns))
    && (forall d :: d != c && d in s.conns ==> s'.conns[d] == s.conns[d])
  }

  lemma CloseCounts(s: State, x: SockId)
    requires SocksInv(s) && ConnsInv(s) && Enabled(s, Close(x)) && s.socks[x].Connected?
    ensures Closed(s, Apply(s, Close(x)), s.socks[x].conn, s.socks[x].side)
  {
    var c, side := s.socks[x].conn, s.socks[x].side;
    assert SockInv(s, x, s.socks[x]) && ConnInv(s, c, s.conns[c]);
    RemoveSockOk(s.conns[c].Get(side), x);
    SlotMeansRegistered(s.conns[c].Get(side), x);
  }

  lemma CallsAfterClose(s: State, s': State, x: SockId)
    requires CallsInv(s) && !InUse(s, x) && s'.socks == s.socks - {x} && s'.calls.Keys == s.calls.Keys
    requires forall t :: t in s.calls ==> s'.calls[t] == s.calls[t] || s'.calls[t] == s.calls[t].(signalled := true)
    ensures CallsInv(s')
  {
    forall t | t in s'.calls ensures CallInv(s', s'.calls[t]) {
      assert CallInv(s, s.calls[t]);
    }
  }

  lemma CloseConnectedKeepsInv(s: State, x: SockId)
    requires Inv(s) && Enabled(s, Close(x)) && s.socks[x].Connected?
    ensures Inv(Apply(s, Close(x))) && Apply(s, Close(x)).status == Running
  {
    var s' := Apply(s, Close(x));
    var c, side := s.socks[x].conn, s.socks[x].side;
    CloseConnectedEffect(s, x);
    LeftKeepsConns(s, s', x, c, side);
    LeftKeepsSocks(s, s', x, c, side);
    LeftKeepsPorts(s, s', x, c, side);
    CallsAfterClose(s, s', x);
    if c !in s'.conns {
      FreedMore(s, s', c);
    }
  }

  /** A connection in the backlog still has its client. */
  predicate ClientWaits(conns: map<ConnId, Conn>, backlog: seq<ConnId>) {
    exists c :: c in backlog && c in conns && conns[c].client.refcount != 0
  }

  ghost predicate DrainedFrom(before: map<ConnId, Conn>, after: map<ConnId, Conn>, backlog: seq<ConnId>) {
    && (forall c :: c in after <==> c in before && c !in backlog)
    && (forall c :: c in after ==> after[c] == before[c])
  }

  /** Draining faults exactly if a client still waits; otherwise it frees each pending connection, once and in order. */
  lemma {:induction false} DrainMeans(conns: map<ConnId, Conn>, freed: seq<ConnId>, backlog: seq<ConnId>)
    requires Distinct(backlog) && (forall c :: c in backlog ==> c in conns)
    ensures Drain(conns, freed, backlog) == None <==> ClientWaits(conns, backlog)
    ensures match Drain(conns, freed, backlog)
      case None => true
      case Some((conns', freed')) => DrainedFrom(conns, conns', backlog) && freed' == freed + backlog
  {
    if backlog != [] {
      var c := backlog[0];
      assert backlog == [c] + backlog[1..];
      assert c !in backlog[1..] && Distinct(backlog[1..]);
      if conns[c].client.refcount == 0 {
        DrainMeans(conns - {c}, freed + [c], backlog[1..]);
        assert freed + [c] + backlog[1..] == freed + backlog;
      }
    }
  }

  /** Closing the listener of this socket would fault. */
  predicate FaultyClose(s: State, x: SockId) {
    && x in s.socks && s.socks[x].Bound? && s.socks[x].port in s.ports
    && ClientWaits(s.conns, s.ports[s.socks[x].port].backlog)
  }

  lemma CloseBoundEffect(s: State, x: SockId)
    requires SocksInv(s) && PortsInv(s) && Enabled(s, Close(x)) && s.socks[x].Bound?
    ensures s.socks[x].port in s.ports && PortInv(s, s.socks[x].port, s.ports[s.socks[x].port])
    ensures var s', port := Apply(s, Close(x)), s.socks[x].port;
      if FaultyClose(s, x) then s' == s.(status := Faulted)
      else
        && s'.status == Running && s'.calls == s.calls
        && s'.socks == s.socks - {x} && s'.ports == s.ports - {port}
        && DrainedFrom(s.conns, s'.conns, s.ports[port].backlog) && s'.freed == s.freed + s.ports[port].backlog
  {
    var port := s.socks[x].port;
    assert SockInv(s, x, s.socks[x]) && PortInv(s, port, s.ports[port]);
    DrainMeans(s.conns, s.freed, s.ports[port].backlog);
  }

  lemma CloseBoundKeepsInv(s: State, x: SockId)
    requires Inv(s) && Enabled(s, Close(x)) && s.socks[x].Bound?
    ensures Inv(Apply(s, Close(x)))
  {
    var s' := Apply(s, Close(x));
    var port := s.socks[x].port;
    CloseBoundEffect(s, x);
    if FaultyClose(s, x) {
      FaultKeepsInv(s);
    } else {
      CallsAfterClose(s, s', x);
      FreedBacklog(s, s', port);
      forall c | c in s'.conns ensures ConnInv(s', c, s'.conns[c]) {
        DrainedKeepsConn(s, s', x, port, c);
      }
      forall z | z in s'.socks ensures SockInv(s', z, s'.socks[z]) {
        DrainedKeepsSock(s, s', x, port, z);
      }
      forall p | p in s'.ports ensures PortInv(s', p, s'.ports[p]) {
        DrainedKeepsPort(s, s', port, p);
      }
    }
  }

  lemma FaultKeepsInv(s: State)
    requires Inv(s)
    ensures Inv(Fault(s))
  {
    var s' := Fault(s);
    forall c | c in s'.conns ensures ConnInv(s', c, s'.conns[c]) {
      assert ConnInv(s, c, s.conns[c]);
    }
    forall x | x in s'.socks ensures SockInv(s', x, s'.socks[x]) {
      assert SockInv(s, x, s.socks[x]);
    }
    forall p | p in s'.ports ensures PortInv(s', p, s'.ports[p]) {
      assert PortInv(s, p, s.ports[p]);
    }
    forall t | t in s'.calls ensures CallInv(s', s'.calls[t]) {
      assert CallInv(s, s.calls[t]);
    }
  }

  lemma FreedBacklog(s: State, s': State, port: Port)
    requires FreedInv(s) && port in s.ports && PortInv(s, port, s.ports[port])
    requires DrainedFrom(s.conns, s'.conns, s.ports[port].backlog) && s'.freed == s.freed + s.ports[port].backlog
    ensures FreedInv(s')
  {
    DistinctConcat(s.freed, s.ports[port].backlog);
  }

  lemma DistinctConcat(a: seq<ConnId>, b: seq<ConnId>)
    requires Distinct(a) && Distinct(b) && forall c :: c in a ==> c !in b
    ensures Distinct(a + b)
  {
    forall i: nat, j: nat | i < j < |a + b| ensures (a + b)[i] != (a + b)[j] {
      if i < |a| <= j {
        assert a[i] in a && b[j - |a|] in b;
      }
    }
  }

  lemma DrainedKeepsConn(s: State, s': State, x: SockId, port: Port, c: ConnId)
    requires ConnsInv(s) && port in s.ports && PortInv(s, port, s.ports[port])
    requires x in s.socks && s.socks[x] == Bound(port) && s'.socks == s.socks - {x} && s'.ports == s.ports - {port}
    requires DrainedFrom(s.conns, s'.conns, s.ports[port].backlog) && c in s'.conns
    ensures ConnInv(s', c, s'.conns[c])
  {
    assert ConnInv(s, c, s.conns[c]);
  }

  lemma DrainedKeepsSock(s: State, s': State, x: SockId, port: Port, z: SockId)
    requires ConnsInv(s) && SocksInv(s) && port in s.ports && PortInv(s, port, s.ports[port])
    requires x in s.socks && s.socks[x] == Bound(port) && s'.socks == s.socks - {x} && s'.ports == s.ports - {port}
    requires DrainedFrom(s.conns, s'.conns, s.ports[port].backlog) && z in s'.socks
    requires !ClientWaits(s.conns, s.ports[port].backlog)
    ensures SockInv(s', z, s'.socks[z])
  {
    assert SockInv(s, z, s.socks[z]) && SockInv(s, x, s.socks[x]);
    if s.socks[z].Connected? && s.socks[z].conn in s.ports[port].backlog {
      var c := s.socks[z].conn;
      assert ConnInv(s, c, s.conns[c]);
      SlotMeansRegistered(s.conns[c].Get(s.socks[z].side), z);
      assert false;
    }
  }

  lemma DrainedKeepsPort(s: State, s': State, port: Port, p: Port)
    requires PortsInv(s) && port in s.ports && s'.ports == s.ports - {port} && p in s'.ports
    requires DrainedFrom(s.conns, s'.conns, s.ports[port].backlog)
    ensures PortInv(s', p, s'.ports[p])
  {
    assert PortInv(s, p, s.ports[p]) && PortInv(s, port, s.ports[port]);
  }

  // ---------- sends and receives ----------

  predicate SameCounts(a: Half, b: Half) {
    a.refcount == b.refcount && a.slots == b.slots && |b.stored| <= CAPACITY
  }

  /** Sends and receives change no reference count, slot, port or socket. */
  ghost predicate SameShape(s: State, s': State) {
    && s'.socks == s.socks && s'.ports == s.ports && s'.freed == s.freed
    && (forall c :: c in s.conns <==> c in s'.conns)
    && forall c :: c in s.conns ==>
      && SameCounts(s.conns[c].client, s'.conns[c].client) && SameCounts(s.conns[c].server, s'.conns[c].server)
      && s'.conns[c].pending == s.conns[c].pending
  }

  lemma SameShapeKeepsInv(s: State, s': State)
    requires ConnsInv(s) && SocksInv(s) && PortsInv(s) && FreedInv(s) && SameShape(s, s')
    ensures ConnsInv(s') && SocksInv(s') && PortsInv(s') && FreedInv(s')
  {
    forall c | c in s'.conns ensures ConnInv(s', c, s'.conns[c]) {
      assert ConnInv(s, c, s.conns[c]);
    }
    forall x | x in s'.socks ensures SockInv(s', x, s'.socks[x]) {
      assert SockInv(s, x, s.socks[x]);
    }
    forall p | p in s'.ports ensures PortInv(s', p, s'.ports[p]) {
      assert PortInv(s, p, s.ports[p]);
    }
  }

  predicate IsCallStep(step: Step) {
    step.SendCall? || step.SendRound? || step.RecvCall? || step.RecvRound? || step.WakeUp?
  }

  /** The connection of an open connected socket is live and its buffers are within bounds. */
  lemma ConnOfSock(s: State, x: SockId)
    requires SocksInv(s) && ConnsInv(s) && x in s.socks && s.socks[x].Connected?
    ensures var c := s.socks[x].conn;
      && c in s.conns && ConnCounts(s.conns[c])
      && 0 < s.conns[c].Get(s.socks[x].side).refcount
  {
    assert SockInv(s, x, s.socks[x]);
    assert ConnInv(s, s.socks[x].conn, s.conns[s.socks[x].conn]);
    SlotMeansRegistered(s.conns[s.socks[x].conn].Get(s.socks[x].side), x);
  }

  lemma ShapeOfOthers(s: State)
    requires ConnsInv(s)
    ensures SameShape(s, s)
  {
    forall c | c in s.conns ensures |s.conns[c].client.stored| <= CAPACITY && |s.conns[c].server.stored| <= CAPACITY {
      assert ConnInv(s, c, s.conns[c]);
    }
  }

  /** Changing the buffer of one half keeps the shape. */
  lemma TouchedShape(s: State, s': State, c: ConnId, side: Side, h: Half)
    requires ConnsInv(s) && c in s.conns && SameCounts(s.conns[c].Get(side), h)
    requires s' == s.(conns := s.conns[c := s.conns[c].With(side, h)], calls := s'.calls)
    ensures SameShape(s, s')
  {
    ShapeOfOthers(s);
  }

  /** now is the call was after some rounds, broadcasts or wake-ups. */
  predicate SameCall(was: Call, now: Call) {
    && was.sock == now.sock && was.conn == now.conn && was.side == now.side && was.Sending? == now.Sending?
    && (if now.Sending? then was.data == now.data && now.written <= |now.data| else was.count == now.count)
  }

  lemma CallsKept(s: State, s': State)
    requires CallsInv(s) && s'.socks == s.socks
    requires forall u :: u in s'.calls ==> u in s.calls && SameCall(s.calls[u], s'.calls[u])
    ensures CallsInv(s')
  {
    forall u | u in s'.calls ensures CallInv(s', s'.calls[u]) {
      assert CallInv(s, s.calls[u]);
    }
  }

  lemma BroadcastKeepsCalls(s: State, c: ConnId, side: Side)
    requires CallsInv(s)
    ensures forall u :: u in s.calls ==> SameCall(s.calls[u], Broadcast(s.calls, c, side)[u])
  {
    forall u | u in s.calls ensures SameCall(s.calls[u], Broadcast(s.calls, c, side)[u]) {
      assert CallInv(s, s.calls[u]);
    }
  }

  lemma NewCall(s: State, s': State, t: Tid)
    requires CallsInv(s) && s'.socks == s.socks && t in s'.calls && CallInv(s, s'.calls[t])
    requires forall u :: u in s'.calls && u != t ==> u in s.calls && s'.calls[u] == s.calls[u]
    ensures CallsInv(s')
  {
    forall u | u in s'.calls ensures CallInv(s', s'.calls[u]) {
      assert u != t ==> CallInv(s, s.calls[u]);
    }
  }

  lemma SendCallShape(s: State, t: Tid, x: SockId, data: seq<byte>)
    requires ConnsInv(s) && SocksInv(s) && CallsInv(s) && Enabled(s, SendCall(t, x, data))
    ensures var s' := Apply(s, SendCall(t, x, data)); s'.status == Running && SameShape(s, s') && CallsInv(s')
  {
    ConnOfSock(s, x);
    var s' := Apply(s, SendCall(t, x, data));
    var c, side := s.socks[x].conn, Other(s.socks[x].side);
    TouchedShape(s, s', c, side, s'.conns[c].Get(side));
    NewCall(s, s', t);
  }

  lemma RecvCallShape(s: State, t: Tid, x: SockId, count: nat, block: bool)
    requires ConnsInv(s) && SocksInv(s) && CallsInv(s) && Enabled(s, RecvCall(t, x, count, block))
    ensures var s' := Apply(s, RecvCall(t, x, count, block)); s'.status == Running && SameShape(s, s') && CallsInv(s')
  {
    ShapeOfOthers(s);
    NewCall(s, Apply(s, RecvCall(t, x, count, block)), t);
  }

  lemma SendRoundCalls(s: State, t: Tid)
    requires CallsInv(s) && Enabled(s, SendRound(t))
    ensures CallsInv(Apply(s, SendRound(t)))
  {
    BroadcastKeepsCalls(s, s.calls[t].conn, s.calls[t].side);
    CallsKept(s, Apply(s, SendRound(t)));
  }

  lemma SendRoundShape(s: State, t: Tid)
    requires ConnsInv(s) && SocksInv(s) && CallsInv(s) && Enabled(s, SendRound(t))
    ensures Apply(s, SendRound(t)).status == Running && SameShape(s, Apply(s, SendRound(t)))
  {
    var call := s.calls[t];
    var c, side := call.conn, call.side;
    assert CallInv(s, call);
    ConnOfSock(s, call.sock);
    var s' := Apply(s, SendRound(t));
    var h := s.conns[c].Get(side);
    if h.refcount == 0 {
      ShapeOfOthers(s);
    } else {
      TouchedShape(s, s', c, side, WriteTo(h, call.data[call.written..]));
    }
  }

  lemma RecvRoundCalls(s: State, t: Tid)
    requires CallsInv(s) && Enabled(s, RecvRound(t))
    ensures CallsInv(Apply(s, RecvRound(t)))
  {
    BroadcastKeepsCalls(s, s.calls[t].conn, s.calls[t].side);
    CallsKept(s, Apply(s, RecvRound(t)));
  }

  lemma RecvRoundShape(s: State, t: Tid)
    requires ConnsInv(s) && SocksInv(s) && CallsInv(s) && Enabled(s, RecvRound(t))
    ensures Apply(s, RecvRound(t)).status == Running && SameShape(s, Apply(s, RecvRound(t)))
  {
    var call := s.calls[t];
    assert CallInv(s, call);
    ConnOfSock(s, call.sock);
    if Receive(s, t).Data? {
      TouchedShape(s, Apply(s, RecvRound(t)), call.conn, call.side,
        ReadFrom(s.conns[call.conn].Get(call.side), call.count));
    } else {
      ShapeOfOthers(s);
    }
  }

  lemma WakeUpShape(s: State, t: Tid)
    requires ConnsInv(s) && SocksInv(s) && CallsInv(s) && Enabled(s, WakeUp(t))
    ensures var s' := Apply(s, WakeUp(t)); s'.status == Running && SameShape(s, s') && CallsInv(s')
  {
    ShapeOfOthers(s);
    assert CallInv(s, s.calls[t]);
  }

  lemma CallStepShape(s: State, step: Step)
    requires Inv(s) && Enabled(s, step) && IsCallStep(step)
    ensures var s' := Apply(s, step); s'.status == Running && SameShape(s, s') && CallsInv(s')
  {
    match step
    case SendCall(t, x, data) => SendCallShape(s, t, x, data);
    case SendRound(t) =>
      SendRoundShape(s, t);
      SendRoundCalls(s, t);
    case RecvCall(t, x, count, block) => RecvCallShape(s, t, x, count, block);
    case RecvRound(t) =>
      RecvRoundShape(s, t);
      RecvRoundCalls(s, t);
    case WakeUp(t) => WakeUpShape(s, t);
  }

  // ---------- every step, every run ----------

  lemma StepKeepsInv(s: State, step: Step)
    requires Inv(s) && Enabled(s, step)
    ensures Inv(Apply(s, step))
  {
    match step
    case Connect(x, port, c) => ConnectKeepsInv(s, x, port, c);
    case Accept(x, y) => AcceptKeepsInv(s, x, y);
    case Dup(x, y) => DupKeepsInv(s, x, y);
    case Close(x) =>
      if s.socks[x].Connected? {
        CloseConnectedKeepsInv(s, x);
      } else if s.socks[x].Bound? {
        CloseBoundKeepsInv(s, x);
      } else {
        ClosePlainKeepsInv(s, x);
      }
    case Open(_) => SetupKeepsInv(s, step);
    case Bind(_, _) => SetupKeepsInv(s, step);
    case Listen(_, _) => SetupKeepsInv(s, step);
    case _ =>
      CallStepShape(s, step);
      SameShapeKeepsInv(s, Apply(s, step));
  }

  lemma ClosePlainKeepsInv(s: State, x: SockId)
    requires Inv(s) && Enabled(s, Close(x)) && s.socks[x].Plain?
    ensures Inv(Apply(s, Close(x)))
  {
    var s' := Apply(s, Close(x));
    CallsAfterClose(s, s', x);
    forall c | c in s'.conns ensures ConnInv(s', c, s'.conns[c]) {
      ConnFrame(s, s', c);
    }
    forall y | y in s'.socks ensures SockInv(s', y, s'.socks[y]) {
      assert SockInv(s, y, s.socks[y]);
    }
    PortsFrame(s, s');
  }

  lemma {:induction false} ReachableInv(s: State, steps: seq<Step>)
    requires Init(s) && Exec(s, steps).Some?
    ensures Inv(Exec(s, steps).value)
  {
    if steps != [] {
      ReachableInv(s, steps[..|steps| - 1]);
      StepKeepsInv(Exec(s, steps[..|steps| - 1]).value, steps[|steps| - 1]);
    }
  }

  // ---------- theorems ----------

  /** The open sockets connected to one side of a connection. */
  ghost function OpenSocks(s: State, c: ConnId, side: Side): set<SockId> {
    set x | x in s.socks && s.socks[x] == Connected(c, side)
  }

  predicate InBacklog(s: State, c: ConnId) {
    exists p :: p in s.ports && c in s.ports[p].backlog
  }

  function SlotSet(h: Half): (r: set<SockId>)
    requires SlotsOk(h)
    ensures |r| == Registered(h)
    ensures forall x: SockId :: x in r <==> x in h.slots
  {
    (if h.slots[0] == 0 then {} else {h.slots[0]}) + (if h.slots[1] == 0 then {} else {h.slots[1]})
  }

  lemma OpenSocksAreSlots(s: State, c: ConnId, side: Side)
    requires ConnsInv(s) && SocksInv(s) && c in s.conns
    ensures SlotsOk(s.conns[c].Get(side)) && OpenSocks(s, c, side) == SlotSet(s.conns[c].Get(side))
  {
    assert ConnInv(s, c, s.conns[c]);
    forall x ensures x in OpenSocks(s, c, side) <==> x in s.conns[c].Get(side).slots {
      if x in s.socks {
        assert SockInv(s, x, s.socks[x]);
      }
    }
  }

  lemma PendingIsInBacklog(s: State, c: ConnId)
    requires ConnsInv(s) && PortsInv(s) && c in s.conns
    ensures s.conns[c].pending.Some? <==> InBacklog(s, c)
  {
    assert ConnInv(s, c, s.conns[c]);
    if p :| p in s.ports && c in s.ports[p].backlog {
      assert PortInv(s, p, s.ports[p]);
    }
  }

  /** Each reference count is the number of open sockets of its side, plus one while pending in a backlog. */
  lemma RefcountsAreExact(s: State, steps: seq<Step>, s': State, c: ConnId)
    requires Init(s) && Exec(s, steps) == Some(s') && c in s'.conns
    ensures s'.conns[c].client.refcount == |OpenSocks(s', c, Client)|
    ensures s'.conns[c].server.refcount == |OpenSocks(s', c, Server)| + (if InBacklog(s', c) then 1 else 0)
  {
    ReachableInv(s, steps);
    assert ConnInv(s', c, s'.conns[c]);
    OpenSocksAreSlots(s', c, Client);
    OpenSocksAreSlots(s', c, Server);
    PendingIsInBacklog(s', c);
  }

  /** A connection is live or freed exactly as long as, or once no longer, something refers to it. */
  lemma FreedExactlyWhenUnreferenced(s: State, steps: seq<Step>, s': State, c: ConnId)
    requires Init(s) && Exec(s, steps) == Some(s') && (c in s'.conns || c in s'.freed)
    ensures c in s'.freed <==> OpenSocks(s', c, Client) == {} && OpenSocks(s', c, Server) == {} && !InBacklog(s', c)
    ensures c in s'.freed <==> c !in s'.conns
  {
    ReachableInv(s, steps);
    if c in s'.conns {
      RefcountsAreExact(s, steps, s', c);
      assert ConnInv(s', c, s'.conns[c]);
    } else {
      forall x | x in s'.socks ensures s'.socks[x] != Connected(c, Client) && s'.socks[x] != Connected(c, Server) {
        assert SockInv(s', x, s'.socks[x]);
      }
      forall p | p in s'.ports ensures c !in s'.ports[p].backlog {
        assert PortInv(s', p, s'.ports[p]);
      }
    }
  }

  lemma ClientWaitsMeans(s: State, port: Port)
    requires Inv(s) && port in s.ports
    ensures ClientWaits(s.conns, s.ports[port].backlog) <==>
      exists c :: c in s.ports[port].backlog && OpenSocks(s, c, Client) != {}
  {
    assert PortInv(s, port, s.ports[port]);
    forall c | c in s.ports[port].backlog ensures s.conns[c].client.refcount != 0 <==> OpenSocks(s, c, Client) != {} {
      assert ConnInv(s, c, s.conns[c]);
      OpenSocksAreSlots(s, c, Client);
    }
  }

  /** What a step does to the status, in terms of its guards. */
  lemma StatusAfter(s: State, step: Step)
    requires Inv(s) && Enabled(s, step)
    ensures Apply(s, step).status == Faulted <==> step.Close? && FaultyClose(s, step.sock)
    ensures Apply(s, step).status == Aborted <==>
      step.Dup? && |OpenSocks(s, s.socks[step.sock].conn, s.socks[step.sock].side)| == SLOTS
  {
    match step
    case Dup(x, y) =>
      DupEffect(s, x, y);
      OpenSocksAreSlots(s, s.socks[x].conn, s.socks[x].side);
    case Accept(x, y) => AcceptKeepsInv(s, x, y);
    case Close(x) =>
      match s.socks[x] {
        case Connected(_, _) => CloseConnectedEffect(s, x);
        case Bound(_) => CloseBoundEffect(s, x);
        case Plain =>
      }
    case Open(_) => SetupStatus(s, step);
    case Bind(_, _) => SetupStatus(s, step);
    case Listen(_, _) => SetupStatus(s, step);
    case Connect(_, _, _) => SetupStatus(s, step);
    case _ => CallStepShape(s, step);
  }

  lemma SetupStatus(s: State, step: Step)
    requires Inv(s) && Enabled(s, step) && (step.Open? || step.Bind? || step.Listen? || step.Connect?)
    ensures Apply(s, step).status == Running
  {
    assert step.Listen? ==> SockInv(s, step.sock, s.socks[step.sock]);
  }

  /**
   A step faults exactly if it closes a listener whose backlog holds a connection with an open client
   socket.  No other step fails an assertion, uses a freed connection or dereferences a null pointer.
   */
  lemma FaultsExactlyOnListenerClose(s: State, steps: seq<Step>, s': State, step: Step)
    requires Init(s) && Exec(s, steps) == Some(s') && Enabled(s', step)
    ensures Apply(s', step).status == Faulted <==>
      && step.Close? && s'.socks[step.sock].Bound? && s'.socks[step.sock].port in s'.ports
      && exists c :: c in s'.ports[s'.socks[step.sock].port].backlog && OpenSocks(s', c, Client) != {}
  {
    ReachableInv(s, steps);
    StatusAfter(s', step);
    if step.Close? && s'.socks[step.sock].Bound? && s'.socks[step.sock].port in s'.ports {
      ClientWaitsMeans(s', s'.socks[step.sock].port);
    }
  }

  /** The first n + 1 steps end with the close of a listener with a waiting client. */
  predicate FaultyCloseAt(s: State, steps: seq<Step>, n: nat) {
    && n < |steps| && Exec(s, steps[..n]).Some?
    && steps[n].Close? && FaultyClose(Exec(s, steps[..n]).value, steps[n].sock)
  }

  /**
   A run is free of faults exactly if it closes no listener with a waiting client.  In every run no
   connection is freed twice, and none that is freed stays published.
   */
  lemma {:induction false} SafeForever(s: State, steps: seq<Step>, s': State)
    requires Init(s) && Exec(s, steps) == Some(s')
    ensures s'.status == Faulted <==> exists n: nat :: FaultyCloseAt(s, steps, n)
    ensures Distinct(s'.freed) && forall c :: c in s'.freed ==> c !in s'.conns
  {
    ReachableInv(s, steps);
    if steps != [] {
      var before, step := steps[..|steps| - 1], steps[|steps| - 1];
      var m := Exec(s, before).value;
      SafeForever(s, before, m);
      ReachableInv(s, before);
      StatusAfter(m, step);
      assert steps == before + [step];
      FaultyCloseLast(s, before, step);
    }
  }

  lemma FaultyCloseLast(s: State, before: seq<Step>, step: Step)
    requires Exec(s, before).Some?
    ensures (exists n: nat :: FaultyCloseAt(s, before + [step], n)) <==>
      (exists n: nat :: FaultyCloseAt(s, before, n)) || (step.Close? && FaultyClose(Exec(s, before).value, step.sock))
  {
    var steps := before + [step];
    forall n: nat | n < |before| ensures FaultyCloseAt(s, steps, n) <==> FaultyCloseAt(s, before, n) {
      assert before[..n] == steps[..n] && before[n] == steps[n];
    }
    assert steps[..|before|] == before && steps[|before|] == step;
    assert FaultyCloseAt(s, steps, |before|) <==> step.Close? && FaultyClose(Exec(s, before).value, step.sock);
  }

  /** The only step that aborts is a dup on a side that already has as many sockets as slots. */
  lemma AbortsOnlyOnThirdDup(s: State, steps: seq<Step>, s': State, step: Step)
    requires Init(s) && Exec(s, steps) == Some(s') && Enabled(s', step)
    ensures Apply(s', step).status == Aborted <==>
      step.Dup? && |OpenSocks(s', s'.socks[step.sock].conn, s'.socks[step.sock].side)| == SLOTS
  {
    ReachableInv(s, steps);
    StatusAfter(s', step);
  }

  /** Afterwards the connection is live or freed, and its side still has no reference if it had none. */
  predicate StaysZero(s: State, s': State, c: ConnId, side: Side)
    requires c in s.conns
  {
    && (c in s'.conns || c in s'.freed)
    && (s.conns[c].Get(side).refcount == 0 && c in s'.conns ==> s'.conns[c].Get(side).refcount == 0)
  }

  /** A published connection stays live until it is freed, and a side without references stays so. */
  lemma ZeroIsFinalStep(s: State, step: Step, c: ConnId, side: Side)
    requires Inv(s) && Enabled(s, step) && c in s.conns
    ensures StaysZero(s, Apply(s, step), c, side)
  {
    match step
    case Accept(_, _) => JoinStaysZero(s, step, c, side);
    case Dup(_, _) => JoinStaysZero(s, step, c, side);
    case Close(x) => CloseStaysZero(s, x, c, side);
    case Open(_) => SetupKeepsZero(s, step, c, side);
    case Bind(_, _) => SetupKeepsZero(s, step, c, side);
    case Listen(_, _) => SetupKeepsZero(s, step, c, side);
    case Connect(_, _, _) => SetupKeepsZero(s, step, c, side);
    case _ => CallKeepsZero(s, step, c, side);
  }

  lemma CloseStaysZero(s: State, x: SockId, c: ConnId, side: Side)
    requires Inv(s) && Enabled(s, Close(x)) && c in s.conns
    ensures StaysZero(s, Apply(s, Close(x)), c, side)
  {
    match s.socks[x]
    case Connected(_, _) => CloseConnectedKeepsZero(s, x, c, side);
    case Bound(_) => CloseBoundKeepsZero(s, x, c, side);
    case Plain =>
  }

  lemma JoinStaysZero(s: State, step: Step, c: ConnId, side: Side)
    requires Inv(s) && Enabled(s, step) && c in s.conns && (step.Dup? || step.Accept?)
    ensures StaysZero(s, Apply(s, step), c, side)
  {
    if s.conns[c].Get(side).refcount == 0 {
      JoinKeepsZero(s, step, c, side);
    } else {
      match step {
        case Dup(x, y) => DupEffect(s, x, y);
        case Accept(x, y) => AcceptEffect(s, x, y);
      }
    }
  }

  lemma CallKeepsZero(s: State, step: Step, c: ConnId, side: Side)
    requires Inv(s) && Enabled(s, step) && c in s.conns && IsCallStep(step)
    ensures StaysZero(s, Apply(s, step), c, side)
  {
    CallStepShape(s, step);
  }

  lemma SetupKeepsZero(s: State, step: Step, c: ConnId, side: Side)
    requires Enabled(s, step) && c in s.conns && (step.Open? || step.Bind? || step.Listen? || step.Connect?)
    ensures StaysZero(s, Apply(s, step), c, side)
  {
  }

  lemma CloseConnectedKeepsZero(s: State, x: SockId, c: ConnId, side: Side)
    requires Inv(s) && Enabled(s, Close(x)) && s.socks[x].Connected? && c in s.conns
    ensures StaysZero(s, Apply(s, Close(x)), c, side)
  {
    CloseConnectedEffect(s, x);
    ConnOfSock(s, x);
  }

  /** Dup and accept register on a side that already has a reference. */
  lemma JoinKeepsZero(s: State, step: Step, c: ConnId, side: Side)
    requires Inv(s) && Enabled(s, step) && c in s.conns && (step.Dup? || step.Accept?)
    requires s.conns[c].Get(side).refcount == 0
    ensures c in Apply(s, step).conns && Apply(s, step).conns[c].Get(side).refcount == 0
  {
    match step
    case Dup(x, y) =>
      ConnOfSock(s, x);
      DupEffect(s, x, y);
    case Accept(x, y) => AcceptKeepsZero(s, x, y, c, side);
  }

  lemma AcceptKeepsZero(s: State, x: SockId, y: SockId, c: ConnId, side: Side)
    requires Inv(s) && Enabled(s, Accept(x, y)) && c in s.conns && s.conns[c].Get(side).refcount == 0
    ensures c in Apply(s, Accept(x, y)).conns && Apply(s, Accept(x, y)).conns[c].Get(side).refcount == 0
  {
    AcceptEffect(s, x, y);
    var port := s.socks[x].port;
    assert PortInv(s, port, s.ports[port]) && ConnInv(s, c, s.conns[c]);
  }

  lemma CloseBoundKeepsZero(s: State, x: SockId, c: ConnId, side: Side)
    requires Inv(s) && Enabled(s, Close(x)) && s.socks[x].Bound? && c in s.conns
    ensures StaysZero(s, Apply(s, Close(x)), c, side)
  {
    CloseBoundEffect(s, x);
  }

  /** Once a side of a published connection has no reference, it never has one again. */
  lemma {:induction false} ZeroIsFinal(
      s: State, before: seq<Step>, m: State, later: seq<Step>, s': State, c: ConnId, side: Side)
    requires Init(s) && Exec(s, before) == Some(m) && Exec(m, later) == Some(s')
    requires c in m.conns && m.conns[c].Get(side).refcount == 0
    ensures c in s'.conns || c in s'.freed
    ensures c in s'.conns ==> s'.conns[c].Get(side).refcount == 0
  {
    ReachableInv(s, before);
    ZeroStaysFrom(m, later, c, side);
  }

  lemma {:induction false} ZeroStaysFrom(m: State, later: seq<Step>, c: ConnId, side: Side)
    requires Inv(m) && Exec(m, later).Some? && c in m.conns && m.conns[c].Get(side).refcount == 0
    ensures var s' := Exec(m, later).value;
      && Inv(s') && (c in s'.conns || c in s'.freed)
      && (c in s'.conns ==> s'.conns[c].Get(side).refcount == 0)
  {
    if later != [] {
      ZeroStaysFrom(m, later[..|later| - 1], c, side);
      var p, step := Exec(m, later[..|later| - 1]).value, later[|later| - 1];
      StepKeepsInv(p, step);
      if c in p.conns {
        ZeroIsFinalStep(p, step, c, side);
      } else {
        FreedStays(p, step, c);
      }
    }
  }

  lemma FreedStays(s: State, step: Step, c: ConnId)
    requires Inv(s) && Enabled(s, step) && c in s.freed
    ensures c in Apply(s, step).freed
  {
    match step
    case Close(x) =>
      if s.socks[x].Bound? {
        CloseBoundEffect(s, x);
      } else if s.socks[x].Connected? {
        CloseConnectedEffect(s, x);
      }
    case Open(_) =>
    case Bind(_, _) =>
    case Listen(_, _) =>
    case Connect(_, _, _) =>
    case Accept(x, y) => AcceptEffect(s, x, y);
    case Dup(x, y) => DupEffect(s, x, y);
    case _ => CallStepShape(s, step);
  }
}
