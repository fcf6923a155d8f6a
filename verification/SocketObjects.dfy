/**
 The objects behind Sockets.dfy as src/ert/enclave/internalsock.c updates them in place: the buffer
 of one side of a connection, the linked list of bound sockets, and the draining of a backlog.
 */
module SocketObjects {
  import opened Common
  import opened Sockets
  import opened SocketAccounting
  import opened RingBuffer

  // ---------- one side of a connection ----------

  class Buffer {
    const ring: Ring
    const socks: array<nat>   // 0 is NULL
    var refcount: nat

    /** The buffer is in the state that h describes; the histories in h are not stored. */
    ghost predicate Holds(h: Half)
      reads this, socks, ring, ring.buf
    {
      && ring.Valid() && ring.buf.Length == CAPACITY && socks.Length == SLOTS
      && h.refcount == refcount && h.slots == socks[..] && h.stored == ring.Stored()
    }

    constructor ()
      ensures Holds(NewConn(1).server) && fresh(ring) && fresh(ring.buf) && fresh(socks)
    {
      ring := new Ring(CAPACITY);
      socks := new nat[SLOTS](_ => 0);
      refcount := 0;
    }

    /** _connection_add; ok is false where the source aborts. */
    method Add(sock: SockId, increment: bool, ghost h: Half) returns (ok: bool)
      requires Holds(h)
      modifies this, socks
      ensures match AddSock(h, sock, increment)
        case None => !ok && Holds(h)
        case Some(h') => ok && Holds(h')
    {
      var i := 0;
      while i < socks.Length
        invariant i <= socks.Length && Holds(h)
        invariant forall k: nat :: k < i ==> socks[k] != 0
      {
        if socks[i] == 0 {
          socks[i] := sock;
          break;
        }
        i := i + 1;
      }
      if i == socks.Length {
        return false;
      }
      if increment {
        refcount := refcount + 1;
      }
      return true;
    }

    /** The part of _connection_remove on the side of the socket; ok is false where an assertion fails. */
    method Remove(sock: SockId, ghost h: Half) returns (ok: bool)
      requires Holds(h)
      modifies this, socks
      ensures ok <==> RemoveSock(h, sock).Some?
      ensures ok ==> Holds(RemoveSock(h, sock).value)
    {
      if refcount == 0 {
        return false;
      }
      refcount := refcount - 1;
      var i := 0;
      while i < socks.Length
        invariant i <= socks.Length && Holds(h.(refcount := h.refcount - 1))
        invariant forall k: nat :: k < i ==> socks[k] != sock
      {
        if socks[i] == sock {
          socks[i] := 0;
          break;
        }
        i := i + 1;
      }
      return i < socks.Length;
    }

    /** The write of one round of _sock_sendto. */
    method Write(data: array<byte>, written: nat, ghost h: Half) returns (n: nat)
      requires Holds(h) && data != ring.buf && written <= data.Length
      modifies ring, ring.buf
      ensures n == Min(data.Length - written, CAPACITY - |h.stored|)
      ensures Holds(WriteTo(h, data[written..]))
    {
      n := ring.Write(data, written, data.Length - written);
      assert data[written..written + (data.Length - written)] == data[written..];
    }

    /** The read of one round of _sock_recvfrom. */
    method Read(data: array<byte>, count: nat, ghost h: Half) returns (n: nat)
      requires Holds(h) && data != ring.buf && count <= data.Length
      modifies ring, data
      ensures n == Min(count, |h.stored|)
      ensures data[..] == h.stored[..n] + old(data[n..])
      ensures Holds(ReadFrom(h, count))
    {
      n := ring.Read(data, 0, count);
    }
  }

  // ---------- the list of bound sockets ----------

  class BoundSock {
    const port: Port
    var next: BoundSock?

    constructor (port: Port, next: BoundSock?)
      ensures this.port == port && this.next == next
    {
      this.port, this.next := port, next;
    }
  }

  lemma RemoveAtMeans(ports: seq<Port>, i: nat)
    requires Distinct(ports) && i < |ports|
    ensures Distinct(RemoveAt(ports, i))
    ensures forall p :: p in RemoveAt(ports, i) <==> p in ports && p != ports[i]
  {
    assert ports == ports[..i] + [ports[i]] + ports[i + 1..];
  }

  class BoundList {
    var front: BoundSock?
    ghost var nodes: seq<BoundSock>
    ghost var ports: seq<Port>
    ghost var owned: set<BoundSock>   // at least the listed objects

    ghost predicate Valid()
      reads this, owned
    {
      && |ports| == |nodes| && Distinct(ports)
      && (forall i :: 0 <= i < |nodes| ==> nodes[i] in owned && nodes[i].port == ports[i])
      && (forall i :: 0 <= i < |nodes| - 1 ==> nodes[i].next == nodes[i + 1])
      && (nodes == [] ==> front == null)
      && (nodes != [] ==> front == nodes[0] && nodes[|nodes| - 1].next == null)
    }

    ghost function NodeAt(i: nat): BoundSock?
      requires i <= |nodes|
      reads this
    {
      if i == |nodes| then null else nodes[i]
    }

    ghost function Prev(i: nat): BoundSock?
      requires i <= |nodes|
      reads this
    {
      if i == 0 then null else nodes[i - 1]
    }

    ghost function Ports(): set<Port>
      reads this
    {
      set p | p in ports
    }

    constructor ()
      ensures Valid() && Ports() == {}
    {
      front, nodes, ports, owned := null, [], [], {};
    }

    /** _find_bound_socket */
    method Find(port: Port) returns (r: BoundSock?)
      requires Valid()
      ensures if port in Ports() then r != null && r in nodes && r.port == port else r == null
    {
      r := front;
      ghost var i := 0;
      while r != null && r.port != port
        invariant i <= |nodes| && r == NodeAt(i) && port !in ports[..i]
        decreases |nodes| - i
      {
        r := r.next;
        i := i + 1;
      }
    }

    /** The search for a port to bind to: the given one, or the lowest unused one for port 0. */
    method UnusedPort(port: Port) returns (r: Option<Port>)
      requires Valid() && port <= LAST_PORT
      ensures r == PortFor(Ports(), port)
    {
      if port != 0 {
        var bound := Find(port);
        return if bound == null then Some(port) else None;
      }
      var p := FIRST_FREE_PORT;
      while p < LAST_PORT
        invariant FIRST_FREE_PORT <= p <= LAST_PORT
        invariant FreePort(Ports(), FIRST_FREE_PORT) == FreePort(Ports(), p)
      {
        var bound := Find(p);
        if bound == null {
          break;
        }
        p := p + 1;
      }
      return if p == LAST_PORT then None else Some(p);
    }

    /** oe_internalsock_bind; null is EADDRINUSE. */
    method Bind(port: Port) returns (bound: BoundSock?)
      requires Valid() && port <= LAST_PORT
      modifies this
      ensures Valid()
      ensures match PortFor(old(Ports()), port)
        case None => bound == null && ports == old(ports)
        case Some(p) => bound != null && fresh(bound) && bound.port == p && ports == [p] + old(ports)
      ensures bound != null ==> nodes == [bound] + old(nodes)
    {
      var found := UnusedPort(port);
      if found == None {
        return null;
      }
      var b := new BoundSock(found.value, front);
      front := b;
      nodes := [b] + nodes;
      ports := [found.value] + ports;
      owned := owned + {b};
      return b;
    }

    method Unlink(p: BoundSock, prev: BoundSock?, ghost i: nat)
      requires Valid() && i < |nodes| && p == nodes[i] && prev == Prev(i)
      modifies this, owned
      ensures Valid() && ports == RemoveAt(old(ports), i)
    {
      RemoveAtMeans(ports, i);
      if prev == null {
        front := p.next;
      } else {
        prev.next := p.next;
      }
      nodes := RemoveAt(nodes, i);
      ports := RemoveAt(ports, i);
    }

    /** The first part of _free_boundsock: takes the object out of the list. */
    method Remove(bound: BoundSock)
      requires Valid()
      modifies this, owned
      ensures Valid()
      ensures if bound in old(nodes)
        then exists i: nat :: i < |old(nodes)| && old(nodes)[i] == bound && ports == RemoveAt(old(ports), i)
        else ports == old(ports)
    {
      var prev: BoundSock? := null;
      var p := front;
      ghost var i := 0;
      while p != null
        invariant Valid() && i <= |nodes| && p == NodeAt(i) && prev == Prev(i)
        invariant nodes == old(nodes) && ports == old(ports) && owned == old(owned)
        invariant bound !in nodes[..i]
        decreases |nodes| - i
      {
        if p == bound {
          Unlink(p, prev, i);
          return;
        }
        prev := p;
        p := p.next;
        i := i + 1;
      }
    }
  }

  // ---------- the backlog of a closed listener ----------

  class Connection {
    const client: Buffer
    const server: Buffer

    ghost predicate Holds(conn: Conn)
      reads this, client, client.socks, client.ring, client.ring.buf
      reads server, server.socks, server.ring, server.ring.buf
    {
      client.Holds(conn.client) && server.Holds(conn.server)
    }

    /** _connection_alloc */
    constructor (sock: SockId)
      ensures Holds(NewConn(sock)) && fresh(client) && fresh(server)
    {
      client := new Buffer();
      server := new Buffer();
      new;
      client.refcount := 1;
      client.socks[0] := sock;
    }
  }

  /** The ring holds the addresses of these connections, and the objects at the addresses are in the given states. */
  ghost predicate HoldsBacklog(
      ring: Ring, objects: map<Pointer, Connection>, pointers: seq<Pointer>, conns: seq<Conn>)
    reads ring, ring.buf
    reads set p | p in objects :: objects[p].client
  {
    && ring.Valid() && ring.Stored() == Bytes(pointers) && |conns| == |pointers|
    && forall i: nat :: i < |pointers| ==>
      pointers[i] in objects && objects[pointers[i]].client.refcount == conns[i].client.refcount
  }

  /** The states of the connections with the given names. */
  function States(conns: map<ConnId, Conn>, ids: seq<ConnId>): (r: seq<Conn>)
    requires forall c :: c in ids ==> c in conns
    ensures |r| == |ids| && forall i: nat :: i < |ids| ==> r[i] == conns[ids[i]]
  {
    seq(|ids|, i requires 0 <= i < |ids| => conns[ids[i]])
  }

  /** Reads the next pointer out of the ring, if there is one. */
  method ReadPointer(ring: Ring, con: array<byte>, ghost rest: seq<Pointer>) returns (bytesRead: nat)
    requires ring.Valid() && ring.Stored() == Bytes(rest) && con != ring.buf && con.Length == POINTER_SIZE
    modifies ring`front, ring`full, con
    ensures ring.Valid() && (bytesRead == 0 <==> rest == [])
    ensures if rest == [] then ring.Stored() == [] else con[..] == rest[0] && ring.Stored() == Bytes(rest[1..])
  {
    BacklogPop(rest);
    bytesRead := ring.Read(con, 0, POINTER_SIZE);
  }

  lemma DrainSucceeds(conns: map<ConnId, Conn>, ids: seq<ConnId>)
    requires Distinct(ids) && (forall c :: c in ids ==> c in conns)
    requires forall conn :: conn in States(conns, ids) ==> conn.client.refcount == 0
    ensures Drain(conns, [], ids).Some?
  {
    DrainMeans(conns, [], ids);
    forall c | c in ids ensures conns[c].client.refcount == 0 {
      assert conns[c] in States(conns, ids);
    }
  }

  lemma DrainFaults(conns: map<ConnId, Conn>, ids: seq<ConnId>, i: nat)
    requires Distinct(ids) && (forall c :: c in ids ==> c in conns)
    requires i < |ids| && States(conns, ids)[i].client.refcount != 0
    ensures Drain(conns, [], ids) == None
  {
    DrainMeans(conns, [], ids);
    assert ids[i] in ids;
  }

  /** The first of the connections are freed, and none of them had a client. */
  ghost predicate FreedSoFar(freed: seq<Pointer>, pending: seq<Pointer>, pointers: seq<Pointer>, states: seq<Conn>) {
    && freed + pending == pointers && |states| == |pointers|
    && forall i: nat :: i < |freed| ==> states[i].client.refcount == 0
  }

  lemma FreeOneMore(freed: seq<Pointer>, pending: seq<Pointer>, pointers: seq<Pointer>, states: seq<Conn>)
    requires FreedSoFar(freed, pending, pointers, states) && pending != []
    ensures |freed| < |pointers| && pointers[|freed|] == pending[0]
    ensures states[|freed|].client.refcount == 0 ==> FreedSoFar(freed + [pending[0]], pending[1..], pointers, states)
  {
    assert (freed + [pending[0]]) + pending[1..] == freed + pending;
  }

  /** Takes connections out of the ring as long as their client side has no reference. */
  method FreeUnreferenced(ring: Ring, objects: map<Pointer, Connection>, ghost pointers: seq<Pointer>,
      ghost states: seq<Conn>)
    returns (ok: bool, freed: seq<Pointer>, con: Pointer)
    requires HoldsBacklog(ring, objects, pointers, states)
    modifies ring`front, ring`full
    ensures ok ==> freed == pointers && ring.Valid() && ring.Stored() == []
    ensures ok ==> forall i: nat :: i < |states| ==> states[i].client.refcount == 0
    ensures !ok ==>
      && |freed| < |pointers| && con == pointers[|freed|] && con in objects
      && states[|freed|].client.refcount != 0
  {
    ghost var pending := pointers;
    var slot := new byte[POINTER_SIZE];
    freed, con := [], seq(POINTER_SIZE, _ => 0);
    var bytesRead := ReadPointer(ring, slot, pending);
    while bytesRead != 0
      invariant ring.Valid() && FreedSoFar(freed, pending, pointers, states) && (bytesRead == 0 <==> pending == [])
      invariant if pending == [] then ring.Stored() == []
        else slot[..] == pending[0] && ring.Stored() == Bytes(pending[1..])
      decreases pending
      modifies ring`front, ring`full, slot
    {
      FreeOneMore(freed, pending, pointers, states);
      con := slot[..];
      if objects[con].client.refcount != 0 {
        return false, freed, con;
      }
      freed := freed + [con];
      pending := pending[1..];
      bytesRead := ReadPointer(ring, slot, pending);
    }
    return true, freed, con;
  }

  /**
   The loop of _free_boundsock over the ring of connection pointers.  ok is false where the source
   releases a lock through a null pointer, and freed has the connections it frees.
   */
  method FreeBacklog(ring: Ring, objects: map<Pointer, Connection>, ghost pointers: seq<Pointer>,
      ghost conns: map<ConnId, Conn>, ghost ids: seq<ConnId>)
    returns (ok: bool, freed: seq<Pointer>)
    requires Distinct(ids) && (forall c :: c in ids ==> c in conns)
    requires HoldsBacklog(ring, objects, pointers, States(conns, ids))
    modifies ring`front, ring`full, set p | p in objects :: objects[p].server
    ensures ok <==> Drain(conns, [], ids).Some?
    ensures ok ==> freed == pointers && ring.Valid() && ring.Stored() == []
    ensures ok ==> forall p :: p in objects ==> objects[p].server.refcount == old(objects[p].server.refcount)
  {
    var con;
    ok, freed, con := FreeUnreferenced(ring, objects, pointers, States(conns, ids));
    if ok {
      DrainSucceeds(conns, ids);
    } else {
      DrainFaults(conns, ids, |freed|);
      objects[con].server.refcount := 0;
    }
  }
}
