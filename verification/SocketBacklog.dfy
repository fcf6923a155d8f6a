/**
 The backlog of a listener in Sockets.dfy: connections wait in the order of their connect calls,
 accept serves the longest waiting one, and a listener takes as many as it promised before it refuses.
 */
module SocketBacklog {
  import opened Common
  import opened Sockets
  import opened SocketAccounting

  /** One more than the position of the last connect call for the connection, or 0. */
  function ConnectedAt(steps: seq<Step>, c: ConnId): (n: nat)
    ensures n <= |steps|
  {
    if steps == [] then 0
    else if steps[|steps| - 1].Connect? && steps[|steps| - 1].conn == c then |steps|
    else ConnectedAt(steps[..|steps| - 1], c)
  }

  predicate InOrder(backlog: seq<ConnId>, steps: seq<Step>) {
    forall i: nat, j: nat :: i < j < |backlog| ==> ConnectedAt(steps, backlog[i]) < ConnectedAt(steps, backlog[j])
  }

  function BacklogOf(s: State, port: Port): seq<ConnId> {
    if port in s.ports then s.ports[port].backlog else []
  }

  /** A step appends the new connection, takes the oldest one out, empties the backlog or leaves it alone. */
  predicate BacklogMoves(was: seq<ConnId>, now: seq<ConnId>, step: Step) {
    || now == was || now == []
    || (step.Connect? && now == was + [step.conn])
    || (step.Accept? && was != [] && now == was[1..])
  }

  lemma StepMovesBacklog(s: State, step: Step, port: Port)
    requires Enabled(s, step) && port in Apply(s, step).ports
    ensures BacklogMoves(BacklogOf(s, port), BacklogOf(Apply(s, step), port), step)
  {
    match step
    case SendCall(_, _, _) =>
    case SendRound(_) =>
    case RecvCall(_, _, _, _) =>
    case RecvRound(_) =>
    case WakeUp(_) =>
    case Close(x) => CloseKeepsPorts(s, x, port);
    case _ => SetupMovesBacklog(s, step, port);
  }

  lemma CloseKeepsPorts(s: State, x: SockId, port: Port)
    requires Enabled(s, Close(x)) && port in Apply(s, Close(x)).ports
    ensures port in s.ports && Apply(s, Close(x)).ports[port] == s.ports[port]
  {
  }

  lemma SetupMovesBacklog(s: State, step: Step, port: Port)
    requires step.Open? || step.Bind? || step.Listen? || step.Connect? || step.Accept? || step.Dup?
    requires Enabled(s, step) && port in Apply(s, step).ports
    ensures BacklogMoves(BacklogOf(s, port), BacklogOf(Apply(s, step), port), step)
  {
  }

  lemma MovesKeepOrder(was: seq<ConnId>, now: seq<ConnId>, before: seq<Step>, step: Step)
    requires InOrder(was, before) && BacklogMoves(was, now, step)
    requires forall c :: c in was ==> !(step.Connect? && step.conn == c)
    ensures InOrder(now, before + [step])
  {
    var steps := before + [step];
    assert steps[..|steps| - 1] == before;
    assert forall c :: c in was ==> ConnectedAt(steps, c) == ConnectedAt(before, c);
  }

  lemma {:induction false} BacklogInOrder(s: State, steps: seq<Step>, port: Port)
    requires Init(s) && Exec(s, steps).Some? && port in Exec(s, steps).value.ports
    ensures InOrder(Exec(s, steps).value.ports[port].backlog, steps)
  {
    if steps != [] {
      var before, step := steps[..|steps| - 1], steps[|steps| - 1];
      var m := Exec(s, before).value;
      ReachableInv(s, before);
      StepMovesBacklog(m, step, port);
      assert steps == before + [step];
      if port in m.ports {
        BacklogInOrder(s, before, port);
        assert PortInv(m, port, m.ports[port]);
        MovesKeepOrder(m.ports[port].backlog, Apply(m, step).ports[port].backlog, before, step);
      } else {
        MovesKeepOrder([], Apply(m, step).ports[port].backlog, before, step);
      }
    }
  }

  /** accept connects the new socket to the client that has waited longest, and never aborts. */
  lemma AcceptServesOldest(s: State, steps: seq<Step>, m: State, x: SockId, y: SockId)
    requires Init(s) && Exec(s, steps) == Some(m) && Enabled(m, Accept(x, y))
    requires m.socks[x].port in m.ports && m.ports[m.socks[x].port].backlog != []
    ensures var m' := Apply(m, Accept(x, y));
      && m'.status == Running && y in m'.socks && m'.socks[y].Connected? && m'.socks[y].side == Server
      && var c := m'.socks[y].conn;
         && c in m.ports[m.socks[x].port].backlog
         && forall d :: d in m.ports[m.socks[x].port].backlog && d != c ==>
              ConnectedAt(steps, c) < ConnectedAt(steps, d)
  {
    ReachableInv(s, steps);
    AcceptKeepsInv(m, x, y);
    AcceptEffect(m, x, y);
    BacklogInOrder(s, steps, m.socks[x].port);
  }

  // ---------- how many connections fit ----------

  /** A socket that connects, and the name of the connection it makes. */
  datatype Client = Client(sock: SockId, conn: ConnId)

  function Connects(clients: seq<Client>, port: Port): (steps: seq<Step>)
    ensures |steps| == |clients|
    ensures forall i: nat :: i < |clients| ==> steps[i] == Connect(clients[i].sock, port, clients[i].conn)
  {
    seq(|clients|, i requires 0 <= i < |clients| => Connect(clients[i].sock, port, clients[i].conn))
  }

  /** The clients are distinct sockets that are not connected yet. */
  predicate NewClients(m: State, clients: seq<Client>) {
    && (forall x :: x in clients ==>
      x.sock in m.socks && m.socks[x.sock] == Plain && x.conn !in m.conns && x.conn !in m.freed)
    && (forall i: nat, j: nat :: i < j < |clients| ==>
      clients[i].sock != clients[j].sock && clients[i].conn != clients[j].conn)
  }

  function Ids(clients: seq<Client>): (r: seq<ConnId>)
    ensures |r| == |clients| && forall i: nat :: i < |clients| ==> r[i] == clients[i].conn
  {
    seq(|clients|, i requires 0 <= i < |clients| => clients[i].conn)
  }

  /** The first clients' connections are in the backlog, and the others were refused. */
  ghost predicate Filled(m: State, s': State, clients: seq<Client>, port: Port, capacity: nat) {
    && s'.status == Running && s'.freed == m.freed && s'.ports.Keys == m.ports.Keys
    && port in s'.ports && s'.ports[port].capacity == capacity
    && s'.ports[port].backlog == Ids(clients)[..Min(|clients|, capacity)]
    && (forall c :: c in s'.conns <==> c in m.conns || c in s'.ports[port].backlog)
    && (forall y :: y in m.socks && (forall x :: x in clients ==> x.sock != y) ==>
      y in s'.socks && s'.socks[y] == m.socks[y])
  }

  lemma {:induction false} ConnectsFill(m: State, clients: seq<Client>, port: Port)
    requires m.status == Running && port in m.ports && 0 < m.ports[port].capacity && m.ports[port].backlog == []
    requires NewClients(m, clients)
    ensures Exec(m, Connects(clients, port)).Some?
    ensures Filled(m, Exec(m, Connects(clients, port)).value, clients, port, m.ports[port].capacity)
  {
    if clients == [] {
      NoneFilled(m, port);
    } else {
      ConnectsFill(m, clients[..|clients| - 1], port);
      OneMoreConnects(m, clients, port, m.ports[port].capacity);
    }
  }

  lemma NoneFilled(m: State, port: Port)
    requires m.status == Running && port in m.ports && m.ports[port].backlog == []
    ensures Exec(m, Connects([], port)) == Some(m) && Filled(m, m, [], port, m.ports[port].capacity)
  {
    assert Connects([], port) == [] && Ids([]) == [];
  }

  lemma OneMoreConnects(m: State, clients: seq<Client>, port: Port, capacity: nat)
    requires 0 < capacity && clients != [] && NewClients(m, clients)
    requires var before := clients[..|clients| - 1];
      && Exec(m, Connects(before, port)).Some?
      && Filled(m, Exec(m, Connects(before, port)).value, before, port, capacity)
    ensures Exec(m, Connects(clients, port)).Some?
    ensures Filled(m, Exec(m, Connects(clients, port)).value, clients, port, capacity)
  {
    var before, x := clients[..|clients| - 1], clients[|clients| - 1];
    var p := Exec(m, Connects(before, port)).value;
    NextMayConnect(m, p, clients, port, capacity);
    OneMore(m, p, before, x, port, capacity);
    ExecThen(m, Connects(before, port), Connect(x.sock, port, x.conn));
    assert Connects(clients, port) == Connects(before, port) + [Connect(x.sock, port, x.conn)];
    assert clients == before + [x];
  }

  lemma NextMayConnect(m: State, p: State, clients: seq<Client>, port: Port, capacity: nat)
    requires clients != [] && NewClients(m, clients) && Filled(m, p, clients[..|clients| - 1], port, capacity)
    ensures var x := clients[|clients| - 1]; Enabled(p, Connect(x.sock, port, x.conn))
  {
    var before, x := clients[..|clients| - 1], clients[|clients| - 1];
    assert x in clients;
    forall y | y in before ensures y.sock != x.sock && y.conn != x.conn {
      var i: nat :| i < |before| && before[i] == y;
      assert clients[i] == y;
    }
    assert x.conn !in Ids(before);
  }

  lemma OneMore(m: State, p: State, before: seq<Client>, x: Client, port: Port, capacity: nat)
    requires Filled(m, p, before, port, capacity) && 0 < capacity && Enabled(p, Connect(x.sock, port, x.conn))
    ensures Filled(m, Apply(p, Connect(x.sock, port, x.conn)), before + [x], port, capacity)
  {
    assert Ids(before + [x])[..Min(|before|, capacity)] == Ids(before)[..Min(|before|, capacity)];
    if |before| < capacity {
      assert Ids(before)[..|before|] + [x.conn] == Ids(before + [x])[..|before| + 1];
    }
  }

  /**
   A socket that starts to listen with backlog n takes the first max(n, 1) connections, in order, and
   refuses further ones as long as none is accepted.
   */
  lemma ListenTakesBacklog(s: State, run: seq<Step>, m: State, x: SockId, backlog: int, clients: seq<Client>)
    requires Init(s) && Exec(s, run) == Some(m) && Enabled(m, Listen(x, backlog)) && NewClients(m, clients)
    requires m.socks[x].port in m.ports && m.ports[m.socks[x].port].capacity == 0
    ensures var port, m' := m.socks[x].port, Apply(m, Listen(x, backlog));
      && Exec(m', Connects(clients, port)).Some?
      && var s' := Exec(m', Connects(clients, port)).value;
         var taken := Ids(clients)[..Min(|clients|, if backlog < 1 then 1 else backlog)];
         && port in s'.ports && s'.ports[port].backlog == taken
         && forall c :: c in s'.conns <==> c in m.conns || c in taken
  {
    var port := m.socks[x].port;
    ConnectsFill(Apply(m, Listen(x, backlog)), clients, port);
  }

  // ---------- what bind, listen and connect do ----------

  /**
   A bind is refused exactly if the port is taken, or for port 0 if all of 1024 to 65534 are; otherwise the
   socket gets the port, or for port 0 the lowest unused one, and does not listen yet.
   */
  lemma BindOutcome(s: State, steps: seq<Step>, m: State, x: SockId, port: Port)
    requires Init(s) && Exec(s, steps) == Some(m) && Enabled(m, Bind(x, port))
    ensures var m' := Apply(m, Bind(x, port));
      var refused := if port == 0 then forall p: Port :: 1024 <= p < 65535 ==> p in m.ports else port in m.ports;
      if refused then m' == m
      else
        && x in m'.socks && m'.socks[x].Bound?
        && var p := m'.socks[x].port;
           && p !in m.ports && (if port != 0 then p == port else 1024 <= p < 65535)
           && (port == 0 ==> forall q: Port :: 1024 <= q < p ==> q in m.ports)
           && m' == m.(socks := m.socks[x := Bound(p)], ports := m.ports[p := Listener(x, 0, [])])
  {
    var found := FreePort(m.ports.Keys, FIRST_FREE_PORT);
  }

  /** A second listen changes nothing; the first one makes room for max(backlog, 1) connections. */
  lemma ListenOutcome(s: State, steps: seq<Step>, m: State, x: SockId, backlog: int)
    requires Init(s) && Exec(s, steps) == Some(m) && Enabled(m, Listen(x, backlog))
    ensures m.socks[x].port in m.ports
    ensures var port, m' := m.socks[x].port, Apply(m, Listen(x, backlog));
      if 0 < m.ports[port].capacity then m' == m
      else m' == m.(ports := m.ports[port := Listener(x, if backlog < 1 then 1 else backlog, [])])
  {
    ReachableInv(s, steps);
    assert SockInv(m, x, m.socks[x]);
  }

  /** A connect is refused exactly if nobody listens on the port or its backlog is full. */
  lemma ConnectOutcome(s: State, steps: seq<Step>, m: State, x: SockId, port: Port, c: ConnId)
    requires Init(s) && Exec(s, steps) == Some(m) && Enabled(m, Connect(x, port, c))
    ensures var m' := Apply(m, Connect(x, port, c));
      if port in m.ports && |m.ports[port].backlog| < m.ports[port].capacity then
        && m'.socks == m.socks[x := Connected(c, Side.Client)] && c in m'.conns
        && port in m'.ports && m'.ports[port].backlog == m.ports[port].backlog + [c]
        && m'.conns[c].client.refcount == 1 && m'.conns[c].server.refcount == 1
        && m'.conns[c].client.stored == [] && m'.conns[c].server.stored == []
      else m' == m
  {
    ReachableInv(s, steps);
    assert port in m.ports ==> PortInv(m, port, m.ports[port]);
  }
}
