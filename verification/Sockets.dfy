/**
 The in-enclave sockets of src/ert/enclave/internalsock.c.

 A connection has a client and a server half.  Each half has a reference count, the registered
 sockets of its side, and the buffer of the bytes that its side receives.  Each operation that the
 source runs under a lock is one step; sends and receives take one step per round of their loops.
 A socket is not closed while a call on it is in progress.
 */
module Sockets {
  import opened Common
  import opened RingBuffer

  type SockId = x: nat | 0 < x witness 1   // 0 stands for NULL in the slots
  type ConnId = nat
  type Port = nat
  type Tid = nat

  const CAPACITY: nat := 16384
  const SLOTS: nat := 2
  const FIRST_FREE_PORT: Port := 1024
  const LAST_PORT: Port := 65535

  datatype Side = Client | Server

  function Other(side: Side): Side {
    if side == Client then Server else Client
  }

  datatype Sock =
    | Plain                              // not an internal socket yet
    | Bound(port: Port)
    | Connected(conn: ConnId, side: Side)

  /** The bound state of the socket owner; it listens if its backlog has a capacity. */
  datatype Listener = Listener(owner: SockId, capacity: nat, backlog: seq<ConnId>)

  /**
   stored is the contents of the ring buffer.  accepted and received are all bytes ever written to it
   and read from it, offered the concatenated data of all send calls, and exclusive tells that no two
   send calls overlapped.
   */
  datatype Half = Half(
    refcount: nat, slots: seq<nat>,
    stored: seq<byte>, accepted: seq<byte>, received: seq<byte>, offered: seq<byte>, exclusive: bool)

  /** pending is the port in whose backlog the connection is. */
  datatype Conn = Conn(client: Half, server: Half, pending: Option<Port>)
  {
    function Get(side: Side): Half {
      if side == Client then client else server
    }

    function With(side: Side, half: Half): (r: Conn)
      ensures r.Get(side) == half && r.Get(Other(side)) == Get(Other(side))
      ensures r.pending == pending
    {
      if side == Client then this.(client := half) else this.(server := half)
    }
  }

  /** A send or receive call in progress; side is the half whose buffer it uses. */
  datatype Call =
    | Sending(sock: SockId, conn: ConnId, side: Side, data: seq<byte>, written: nat, asleep: bool, signalled: bool)
    | Receiving(sock: SockId, conn: ConnId, side: Side, count: nat, block: bool, asleep: bool, signalled: bool)

  /**
   Faulted: an assertion failed, a freed connection was used, or a null pointer was dereferenced.
   Aborted: too many dup()ed sockets.
   */
  datatype Status = Running | Aborted | Faulted

  datatype State = State(
    socks: map<SockId, Sock>, ports: map<Port, Listener>, conns: map<ConnId, Conn>,
    freed: seq<ConnId>, calls: map<Tid, Call>, status: Status)

  datatype Step =
    | Open(sock: SockId)
    | Bind(sock: SockId, port: Port)
    | Listen(sock: SockId, backlog: int)
    | Connect(sock: SockId, port: Port, conn: ConnId)
    | Accept(sock: SockId, newSock: SockId)
    | Dup(sock: SockId, newSock: SockId)
    | Close(sock: SockId)
    | SendCall(t: Tid, sock: SockId, data: seq<byte>)
    | SendRound(t: Tid)
    | RecvCall(t: Tid, sock: SockId, count: nat, block: bool)
    | RecvRound(t: Tid)
    | WakeUp(t: Tid)

  predicate Init(s: State) {
    s == State(map[], map[], map[], [], map[], Running)
  }

  // ---------- reference counts and slots ----------

  /** _connection_add on one half: registers the socket in the first free slot, if there is one. */
  function AddSock(h: Half, x: SockId, increment: bool): (r: Option<Half>)
    requires |h.slots| == SLOTS
    ensures r.Some? ==> r.value.(slots := h.slots, refcount := h.refcount) == h
  {
    var refcount := if increment then h.refcount + 1 else h.refcount;
    if h.slots[0] == 0 then Some(h.(slots := h.slots[0 := x], refcount := refcount))
    else if h.slots[1] == 0 then Some(h.(slots := h.slots[1 := x], refcount := refcount))
    else None
  }

  /** The first part of _connection_remove: None stands for a failed assertion. */
  function RemoveSock(h: Half, x: SockId): (r: Option<Half>)
    requires |h.slots| == SLOTS
    ensures r.Some? ==> r.value.(slots := h.slots, refcount := h.refcount) == h
  {
    if h.refcount == 0 then None
    else if h.slots[0] == x then Some(h.(slots := h.slots[0 := 0], refcount := h.refcount - 1))
    else if h.slots[1] == x then Some(h.(slots := h.slots[1 := 0], refcount := h.refcount - 1))
    else None
  }

  /** _connection_alloc for a client socket. */
  function NewConn(x: SockId): Conn {
    Conn(Half(1, [x as nat, 0], [], [], [], [], true), Half(0, [0, 0], [], [], [], [], true), None)
  }

  /** The lowest unused port from port on, for a bind to port 0. */
  function FreePort(ports: set<Port>, port: Port): (r: Option<Port>)
    requires port <= LAST_PORT
    ensures match r
      case None => forall p: Port :: port <= p < LAST_PORT ==> p in ports
      case Some(q) => port <= q < LAST_PORT && q !in ports && forall p: Port :: port <= p < q ==> p in ports
    decreases LAST_PORT - port
  {
    if port == LAST_PORT then None
    else if port !in ports then Some(port)
    else FreePort(ports, port + 1)
  }

  /** The port that a bind gets: the given one, or the lowest unused one for port 0. */
  function PortFor(ports: set<Port>, port: Port): (r: Option<Port>)
    ensures r.Some? ==> r.value !in ports
  {
    if port == 0 then FreePort(ports, FIRST_FREE_PORT)
    else if port in ports then None
    else Some(port)
  }

  /**
   The loop of _free_boundsock over the pending connections; None stands for a fault.  If the client
   side still has a reference, the source sets its pointer to the connection to NULL and then releases
   the connection's lock through that pointer.
   */
  function Drain(conns: map<ConnId, Conn>, freed: seq<ConnId>, backlog: seq<ConnId>):
    Option<(map<ConnId, Conn>, seq<ConnId>)>
  {
    if backlog == [] then Some((conns, freed))
    else
      var c := backlog[0];
      if c !in conns || conns[c].client.refcount != 0 then None
      else Drain(conns - {c}, freed + [c], backlog[1..])
  }

  // ---------- steps ----------

  predicate InUse(s: State, sock: SockId) {
    exists t :: t in s.calls && s.calls[t].sock == sock
  }

  predicate Enabled(s: State, step: Step) {
    && s.status == Running
    && match step
       case Open(x) => x !in s.socks
       case Bind(x, port) => x in s.socks && s.socks[x] == Plain && port <= LAST_PORT
       case Listen(x, _) => x in s.socks && s.socks[x].Bound?
       case Connect(x, _, c) => x in s.socks && s.socks[x] == Plain && c !in s.conns && c !in s.freed
       case Accept(x, y) => x in s.socks && s.socks[x].Bound? && y !in s.socks
       case Dup(x, y) => x in s.socks && s.socks[x].Connected? && y !in s.socks
       case Close(x) => x in s.socks && !InUse(s, x)
       case SendCall(t, x, _) => t !in s.calls && x in s.socks && s.socks[x].Connected?
       case SendRound(t) => t in s.calls && s.calls[t].Sending? && !s.calls[t].asleep
       case RecvCall(t, x, count, _) => t !in s.calls && x in s.socks && s.socks[x].Connected? && 0 < count
       case RecvRound(t) => t in s.calls && s.calls[t].Receiving? && !s.calls[t].asleep
       case WakeUp(t) => t in s.calls && s.calls[t].asleep   // signalled or spurious
  }

  function Fault(s: State): State {
    s.(status := Faulted)
  }

  /** oe_cond_broadcast on the buffer of one half. */
  function Broadcast(calls: map<Tid, Call>, conn: ConnId, side: Side): (r: map<Tid, Call>)
    ensures r.Keys == calls.Keys
  {
    map t | t in calls ::
      if calls[t].conn == conn && calls[t].side == side && calls[t].asleep then calls[t].(signalled := true)
      else calls[t]
  }

  function Apply(s: State, step: Step): State
    requires Enabled(s, step)
  {
    match step
    case Open(x) => s.(socks := s.socks[x := Plain])
    case Bind(x, port) => ApplyBind(s, x, port)
    case Listen(x, backlog) => ApplyListen(s, x, backlog)
    case Connect(x, port, c) => ApplyConnect(s, x, port, c)
    case Accept(x, y) => ApplyAccept(s, x, y)
    case Dup(x, y) => ApplyDup(s, x, y)
    case Close(x) => ApplyClose(s, x)
    case SendCall(t, x, data) => ApplySendCall(s, t, x, data)
    case SendRound(t) => ApplySendRound(s, t)
    case RecvCall(t, x, count, block) =>
      var sock := s.socks[x];
      s.(calls := s.calls[t := Receiving(x, sock.conn, sock.side, count, block, false, false)])
    case RecvRound(t) => ApplyRecvRound(s, t)
    case WakeUp(t) => s.(calls := s.calls[t := s.calls[t].(asleep := false, signalled := false)])
  }

  function ApplyBind(s: State, x: SockId, port: Port): State
    requires x in s.socks
  {
    match PortFor(s.ports.Keys, port)
    case None => s   // EADDRINUSE
    case Some(p) => s.(socks := s.socks[x := Bound(p)], ports := s.ports[p := Listener(x, 0, [])])
  }

  function ApplyListen(s: State, x: SockId, backlog: int): State
    requires x in s.socks && s.socks[x].Bound?
  {
    var port := s.socks[x].port;
    if port !in s.ports then Fault(s)
    else if s.ports[port].capacity != 0 then s   // EADDRINUSE
    else s.(ports := s.ports[port := Listener(x, if backlog <= 0 then 1 else backlog, [])])
  }

  function ApplyConnect(s: State, x: SockId, port: Port, c: ConnId): State
    requires x in s.socks
  {
    if port !in s.ports || s.ports[port].capacity == 0 || |s.ports[port].backlog| >= s.ports[port].capacity then
      s   // ECONNREFUSED; the unpublished connection is freed
    else
      var listener := s.ports[port];
      var conn := NewConn(x);
      s.(socks := s.socks[x := Connected(c, Client)],
         ports := s.ports[port := listener.(backlog := listener.backlog + [c])],
         conns := s.conns[c := conn.(server := conn.server.(refcount := 1), pending := Some(port))])
  }

  function ApplyAccept(s: State, x: SockId, y: SockId): State
    requires x in s.socks && s.socks[x].Bound?
  {
    var port := s.socks[x].port;
    if port !in s.ports then Fault(s)
    else if s.ports[port].backlog == [] then s   // EINVAL, EAGAIN, or it keeps waiting
    else
      var c := s.ports[port].backlog[0];
      if c !in s.conns then Fault(s) else
        var s1 := s.(ports := s.ports[port := s.ports[port].(backlog := s.ports[port].backlog[1..])],
                     conns := s.conns[c := s.conns[c].(pending := None)]);
        Register(s1, y, c, Server, false)
  }

  function ApplyDup(s: State, x: SockId, y: SockId): State
    requires x in s.socks && s.socks[x].Connected?
  {
    Register(s, y, s.socks[x].conn, s.socks[x].side, true)
  }

  /** _connection_add for a new socket. */
  function Register(s: State, y: SockId, c: ConnId, side: Side, increment: bool): State {
    if c !in s.conns || |s.conns[c].Get(side).slots| != SLOTS then Fault(s) else
      match AddSock(s.conns[c].Get(side), y, increment)
      case None => s.(status := Aborted)
      case Some(h) => s.(socks := s.socks[y := Connected(c, side)], conns := s.conns[c := s.conns[c].With(side, h)])
  }

  function ApplyClose(s: State, x: SockId): State
    requires x in s.socks
  {
    match s.socks[x]
    case Plain => s.(socks := s.socks - {x})
    case Bound(port) =>
      if port !in s.ports then Fault(s) else
        (match Drain(s.conns, s.freed, s.ports[port].backlog)
         case None => Fault(s)
         case Some((conns, freed)) =>
           s.(socks := s.socks - {x}, ports := s.ports - {port}, conns := conns, freed := freed))
    case Connected(c, side) =>
      if c !in s.conns || |s.conns[c].Get(side).slots| != SLOTS then Fault(s) else
        (match RemoveSock(s.conns[c].Get(side), x)
         case None => Fault(s)
         case Some(h) =>
           var s1 := s.(socks := s.socks - {x});
           if h.refcount != 0 then s1.(conns := s.conns[c := s.conns[c].With(side, h)])
           else if s.conns[c].Get(Other(side)).refcount == 0 then s1.(conns := s.conns - {c}, freed := s.freed + [c])
           else s1.(conns := s.conns[c := s.conns[c].With(side, h)], calls := Broadcast(s.calls, c, Other(side))))
  }

  /** The call writes to the buffer of a half. */
  predicate SendsTo(call: Call, c: ConnId, side: Side) {
    call.Sending? && call.conn == c && call.side == side
  }

  predicate NobodySends(calls: map<Tid, Call>, c: ConnId, side: Side) {
    forall t :: t in calls ==> !SendsTo(calls[t], c, side)
  }

  /** Records the data of a new send call; alone tells that no other send on the half is in progress. */
  function Offer(h: Half, data: seq<byte>, alone: bool): (r: Half)
    ensures r.refcount == h.refcount && r.slots == h.slots && r.stored == h.stored
  {
    h.(offered := h.offered + data, exclusive := h.exclusive && alone)
  }

  function ApplySendCall(s: State, t: Tid, x: SockId, data: seq<byte>): State
    requires x in s.socks && s.socks[x].Connected?
  {
    var c, side := s.socks[x].conn, Other(s.socks[x].side);
    if c !in s.conns then Fault(s) else
      var h := s.conns[c].Get(side);
      var alone := NobodySends(s.calls, c, side);
      s.(calls := s.calls[t := Sending(x, c, side, data, 0, false, false)],
         conns := s.conns[c := s.conns[c].With(side, Offer(h, data, alone))])
  }

  /** ert_ringbuffer_write into the buffer of a half. */
  function WriteTo(h: Half, data: seq<byte>): (r: Half)
    requires |h.stored| <= CAPACITY
    ensures r.refcount == h.refcount && r.slots == h.slots && |r.stored| <= CAPACITY
  {
    h.(stored := AfterWrite(h.stored, CAPACITY, data),
       accepted := h.accepted + data[..Min(|data|, CAPACITY - |h.stored|)])
  }

  /** ert_ringbuffer_read from the buffer of a half. */
  function ReadFrom(h: Half, count: nat): (r: Half)
    ensures r.refcount == h.refcount && r.slots == h.slots && |r.stored| <= |h.stored|
  {
    h.(stored := AfterRead(h.stored, count), received := h.received + h.stored[..Min(count, |h.stored|)])
  }

  /** What one round of a send call does; Sent returns the length of its data. */
  datatype SendOutcome = Sent(n: nat) | BrokenPipe | Blocked

  function Send(s: State, t: Tid): SendOutcome
    requires t in s.calls && s.calls[t].Sending? && s.calls[t].conn in s.conns
    requires s.calls[t].written <= |s.calls[t].data|
    requires |s.conns[s.calls[t].conn].Get(s.calls[t].side).stored| <= CAPACITY
  {
    var call := s.calls[t];
    var h := s.conns[call.conn].Get(call.side);
    if h.refcount == 0 then BrokenPipe
    else
      var n := Min(|call.data| - call.written, CAPACITY - |h.stored|);
      if call.written + n == |call.data| then Sent(|call.data|) else Blocked
  }

  function ApplySendRound(s: State, t: Tid): State
    requires t in s.calls && s.calls[t].Sending?
  {
    var call := s.calls[t];
    if call.conn !in s.conns || call.written > |call.data| then Fault(s) else
      var conn := s.conns[call.conn];
      var h := conn.Get(call.side);
      if |h.stored| > CAPACITY then Fault(s) else
        var outcome := Send(s, t);
        if outcome == BrokenPipe then s.(calls := s.calls - {t})   // EPIPE
        else
          var rest := call.data[call.written..];
          var n := Min(|rest|, CAPACITY - |h.stored|);
          var calls := Broadcast(s.calls, call.conn, call.side);
          s.(conns := s.conns[call.conn := conn.With(call.side, WriteTo(h, rest))],
             calls := if outcome.Sent? then calls - {t}
                      else calls[t := call.(written := call.written + n, asleep := true, signalled := false)])
  }

  /** What one round of a receive call does. */
  datatype Outcome = Data(n: nat) | EndOfStream | TryAgain | Wait

  function Receive(s: State, t: Tid): Outcome
    requires t in s.calls && s.calls[t].Receiving? && s.calls[t].conn in s.conns
  {
    var call := s.calls[t];
    var conn := s.conns[call.conn];
    var n := Min(call.count, |conn.Get(call.side).stored|);
    if n != 0 then Data(n)
    else if conn.Get(Other(call.side)).refcount == 0 then EndOfStream
    else if call.block then Wait
    else TryAgain
  }

  function ApplyRecvRound(s: State, t: Tid): State
    requires t in s.calls && s.calls[t].Receiving?
  {
    var call := s.calls[t];
    if call.conn !in s.conns then Fault(s) else
      var conn := s.conns[call.conn];
      var h := conn.Get(call.side);
      match Receive(s, t)
      case Data(n) =>
        s.(conns := s.conns[call.conn := conn.With(call.side, ReadFrom(h, call.count))],
           calls := Broadcast(s.calls, call.conn, call.side) - {t})
      case Wait => s.(calls := s.calls[t := call.(asleep := true, signalled := false)])
      case _ => s.(calls := s.calls - {t})
  }

  /** The state after the steps, or None if one of them is not enabled when it is taken. */
  function Exec(s: State, steps: seq<Step>): Option<State> {
    if steps == [] then Some(s) else
      match Exec(s, steps[..|steps| - 1])
      case None => None
      case Some(m) =>
        var step := steps[|steps| - 1];
        if Enabled(m, step) then Some(Apply(m, step)) else None
  }

  lemma ExecThen(s: State, steps: seq<Step>, step: Step)
    requires Exec(s, steps).Some? && Enabled(Exec(s, steps).value, step)
    ensures Exec(s, steps + [step]) == Some(Apply(Exec(s, steps).value, step))
  {
    assert (steps + [step])[..|steps + [step]| - 1] == steps;
  }
}
