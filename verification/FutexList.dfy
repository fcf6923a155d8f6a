/**
 The linked wait list of src/ert/libc/ertfutex.c.

 Each thread owns one Info object; the objects of waiting threads are linked from front to back.
 */
module FutexList {
  import opened Common
  import opened FutexQueue

  class Info {
    var next: Info?
    var uaddr: nat
    var tcs: nat

    constructor (tcs: nat)
      ensures this.tcs == tcs && next == null
    {
      next, uaddr, this.tcs := null, 0, tcs;
    }
  }

  class WaitList {
    var front: Info?
    var back: Info?
    ghost var nodes: seq<Info>
    ghost var entries: seq<Entry>
    ghost var owned: set<Info>   // at least the queued objects

    ghost predicate Valid()
      reads this, owned
    {
      && |entries| == |nodes|
      && (forall i :: 0 <= i < |nodes| ==> nodes[i] in owned)
      && (forall i, j :: 0 <= i < j < |nodes| ==> nodes[i] != nodes[j])
      && (forall i :: 0 <= i < |nodes| ==> entries[i] == Entry(nodes[i].tcs, nodes[i].uaddr))
      && (forall i :: 0 <= i < |nodes| - 1 ==> nodes[i].next == nodes[i + 1])
      && (nodes == [] ==> front == null && back == null)
      && (nodes != [] ==> front == nodes[0] && back == nodes[|nodes| - 1] && nodes[|nodes| - 1].next == null)
    }

    constructor ()
      ensures Valid() && nodes == []
    {
      front, back := null, null;
      nodes, entries, owned := [], [], {};
    }

    /** The node before position i, as the loops track it. */
    ghost function Prev(i: nat): Info?
      requires i <= |nodes|
      reads this
    {
      if i == 0 then null else nodes[i - 1]
    }

    ghost function NodeAt(i: nat): Info?
      requires i <= |nodes|
      reads this
    {
      if i == |nodes| then null else nodes[i]
    }

    /** Only the links between the objects may have changed. */
    twostate predicate SameThreads()
      reads this, owned
    {
      forall n :: n in owned && n in old(owned) ==> n.uaddr == old(n.uaddr) && n.tcs == old(n.tcs)
    }

    method Unlink(p: Info, prev: Info?, ghost i: nat)
      requires Valid() && i < |nodes| && p == nodes[i] && prev == Prev(i)
      modifies this, owned
      ensures Valid() && owned == old(owned)
      ensures nodes == RemoveAt(old(nodes), i) && entries == RemoveAt(old(entries), i)
      ensures SameThreads()
    {
      ghost var was := nodes;
      if p == front {
        front := p.next;
      }
      if p == back {
        back := prev;
      }
      if prev != null {
        prev.next := p.next;
      }
      nodes := RemoveAt(nodes, i);
      entries := RemoveAt(entries, i);
    }

    method PushBack(info: Info)
      requires Valid() && info !in nodes
      modifies this, owned, info
      ensures Valid() && owned == old(owned) + {info}
      ensures nodes == old(nodes) + [info] && entries == old(entries) + [Entry(info.tcs, info.uaddr)]
      ensures info.uaddr == old(info.uaddr) && info.tcs == old(info.tcs)
    {
      info.next := null;
      if back != null {
        back.next := info;
      } else {
        front := info;
      }
      back := info;
      nodes := nodes + [info];
      owned := owned + {info};
      entries := entries + [Entry(info.tcs, info.uaddr)];
    }

    /** Takes out the oldest waiter on uaddr, if any. */
    method Pop(uaddr: nat) returns (waiter: Info?)
      requires Valid()
      modifies this, owned
      ensures Valid() && owned == old(owned)
      ensures SameThreads()
      ensures var i := FirstMatch(old(entries), uaddr);
        if i == |old(entries)| then waiter == null && nodes == old(nodes) && entries == old(entries)
        else
          && waiter == old(nodes)[i] && waiter.tcs == old(entries)[i].tcs
          && nodes == RemoveAt(old(nodes), i) && entries == RemoveAt(old(entries), i)
    {
      var prev: Info? := null;
      var p := front;
      ghost var i := 0;
      while p != null
        invariant Valid() && i <= |nodes| && p == NodeAt(i) && prev == Prev(i)
        invariant nodes == old(nodes) && entries == old(entries) && owned == old(owned)
        invariant forall j :: 0 <= j < i ==> entries[j].uaddr != uaddr
        decreases |nodes| - i
      {
        if p.uaddr == uaddr {
          FirstMatchIs(entries, uaddr, i);
          Unlink(p, prev, i);
          return p;
        }
        prev := p;
        p := p.next;
        i := i + 1;
      }
      FirstMatchIs(entries, uaddr, i);
      return null;
    }

    method Contains(info: Info) returns (b: bool)
      requires Valid()
      ensures b <==> info in nodes
    {
      var p := front;
      ghost var i := 0;
      while p != null
        invariant i <= |nodes| && p == NodeAt(i) && info !in nodes[..i]
        decreases |nodes| - i
      {
        if p == info {
          return true;
        }
        p := p.next;
        i := i + 1;
      }
      return false;
    }

    /** Takes out the given object if it is queued. */
    method Remove(info: Info)
      requires Valid()
      modifies this, owned
      ensures Valid() && owned == old(owned) && SameThreads()
      ensures nodes == Without(old(nodes), info)
      ensures info !in old(nodes) ==> entries == old(entries)
      ensures info in old(nodes) && DistinctThreads(old(entries)) ==>
        entries == WithoutThread(old(entries), old(info.tcs))
    {
      var prev: Info? := null;
      var p := front;
      ghost var i := 0;
      while p != null
        invariant Valid() && i <= |nodes| && p == NodeAt(i) && prev == Prev(i)
        invariant nodes == old(nodes) && entries == old(entries) && owned == old(owned) && SameThreads()
        invariant info !in nodes[..i]
        decreases |nodes| - i
      {
        if p == info {
          WithoutKeepsOrder(nodes, info, i);
          if DistinctThreads(entries) {
            WithoutThreadAt(entries, info.tcs, i);
          }
          Unlink(p, prev, i);
          return;
        }
        prev := p;
        p := p.next;
        i := i + 1;
      }
    }

    /** Takes out the oldest object of the thread with the given TCS. */
    method RemoveTcs(tcs: nat)
      requires Valid()
      modifies this, owned
      ensures Valid() && owned == old(owned) && SameThreads()
      ensures entries == WithoutThread(old(entries), tcs)
    {
      var prev: Info? := null;
      var p := front;
      ghost var i := 0;
      while p != null
        invariant Valid() && i <= |nodes| && p == NodeAt(i) && prev == Prev(i)
        invariant nodes == old(nodes) && entries == old(entries) && owned == old(owned)
        invariant forall j: nat :: j < i ==> entries[j].tcs != tcs
        decreases |nodes| - i
      {
        if p.tcs == tcs {
          WithoutThreadAt(entries, tcs, i);
          Unlink(p, prev, i);
          return;
        }
        prev := p;
        p := p.next;
        i := i + 1;
      }
      WithoutNobody(entries, tcs);
    }

    /** Moves all waiters on uaddr to uaddr2 without reordering. */
    method Replace(uaddr: nat, uaddr2: nat)
      requires Valid()
      modifies this`entries, owned
      ensures Valid() && owned == old(owned) && nodes == old(nodes)
      ensures entries == Retarget(old(entries), uaddr, uaddr2)
    {
      ghost var was := entries;
      var p := front;
      ghost var i := 0;
      while p != null
        invariant Valid() && owned == old(owned) && i <= |nodes| && p == NodeAt(i) && |entries| == |was|
        invariant forall j: nat :: j < i ==> entries[j] == Retarget(was, uaddr, uaddr2)[j]
        invariant forall j: nat :: i <= j < |was| ==> entries[j] == was[j]
        decreases |nodes| - i
      {
        if p.uaddr == uaddr {
          p.uaddr := uaddr2;
          entries := entries[i := entries[i].(uaddr := uaddr2)];
        }
        p := p.next;
        i := i + 1;
      }
    }

    /** The loop of _wake: takes up to limit waiters on uaddr off the list. */
    method Collect(uaddr: nat, limit: nat) returns (tcs: seq<nat>)
      requires Valid()
      modifies this, owned
      ensures Valid() && owned == old(owned)
      ensures Pops(old(entries), uaddr, limit) == (tcs, entries)
    {
      ghost var was := entries;
      tcs := [];
      NoneCollected(was, uaddr, limit);
      while |tcs| < limit
        invariant Valid() && owned == old(owned) && |tcs| <= limit
        invariant CollectedSoFar(was, uaddr, limit, tcs, entries)
      {
        ghost var before := entries;
        var waiter := Pop(uaddr);
        if waiter == null {
          break;
        }
        OneMore(was, uaddr, limit, tcs, before);
        tcs := tcs + [waiter.tcs];
      }
      Collected(was, uaddr, limit, tcs, entries);
    }

    /**
     The part of _wake under the lock: collects the threads to be woken, oldest first, and with a
     uaddr2 other than 0 (NULL) requeues the remaining waiters.
     */
    method Wake(uaddr: nat, val: nat, uaddr2: nat) returns (tcs: seq<nat>)
      requires Valid()
      modifies this, owned
      ensures Valid() && owned == old(owned) && |tcs| <= MAX_WAKE
      ensures tcs == Woken(old(entries), uaddr, val)
      ensures entries == AfterWake(old(entries), uaddr, val, uaddr2)
    {
      var limit := val;
      if limit > MAX_WAKE {
        limit := MAX_WAKE;
      }
      PopsTakeOldest(entries, uaddr, limit);
      tcs := Collect(uaddr, limit);
      if uaddr2 != 0 {
        Replace(uaddr, uaddr2);
      }
    }
  }

  /** Some of the pops are done: tcs has their results, and q is what they left. */
  predicate CollectedSoFar(was: seq<Entry>, uaddr: nat, limit: nat, tcs: seq<nat>, q: seq<Entry>)
    requires |tcs| <= limit
  {
    var (taken, rest) := Pops(q, uaddr, limit - |tcs|);
    Pops(was, uaddr, limit) == (tcs + taken, rest)
  }

  lemma NoneCollected(was: seq<Entry>, uaddr: nat, limit: nat)
    ensures CollectedSoFar(was, uaddr, limit, [], was)
  {
    var taken := Pops(was, uaddr, limit).0;
    assert [] + taken == taken;
  }

  lemma Append(tcs: seq<nat>, next: nat, rest: seq<nat>)
    ensures tcs + ([next] + rest) == tcs + [next] + rest
  {
  }

  lemma OneMore(was: seq<Entry>, uaddr: nat, limit: nat, tcs: seq<nat>, q: seq<Entry>)
    requires |tcs| < limit && CollectedSoFar(was, uaddr, limit, tcs, q) && FirstMatch(q, uaddr) < |q|
    ensures var i := FirstMatch(q, uaddr); CollectedSoFar(was, uaddr, limit, tcs + [q[i].tcs], RemoveAt(q, i))
  {
    var i := FirstMatch(q, uaddr);
    var next := Pops(RemoveAt(q, i), uaddr, limit - |tcs| - 1);
    assert Pops(q, uaddr, limit - |tcs|) == ([q[i].tcs] + next.0, next.1);
    Append(tcs, q[i].tcs, next.0);
    assert limit - |tcs + [q[i].tcs]| == limit - |tcs| - 1;
  }

  lemma Collected(was: seq<Entry>, uaddr: nat, limit: nat, tcs: seq<nat>, q: seq<Entry>)
    requires |tcs| <= limit && CollectedSoFar(was, uaddr, limit, tcs, q)
    requires |tcs| == limit || FirstMatch(q, uaddr) == |q|
    ensures Pops(was, uaddr, limit) == (tcs, q)
  {
    assert tcs + [] == tcs;
  }

  lemma {:induction false} FirstMatchIs(q: seq<Entry>, uaddr: nat, i: nat)
    requires i <= |q| && (i < |q| ==> q[i].uaddr == uaddr)
    requires forall j :: 0 <= j < i ==> q[j].uaddr != uaddr
    ensures FirstMatch(q, uaddr) == i
  {
    var k := FirstMatch(q, uaddr);
  }
}
