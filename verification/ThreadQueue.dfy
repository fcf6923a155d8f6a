/**
 The linked queue of threads to be started, in src/ertlibc/new_thread.cpp.
 */
module ThreadQueue {
  import opened Common

  datatype ThreadState = Queued | Running | Done | Joined

  class NewThread {
    var next: NewThread?
    var state: ThreadState

    constructor ()
      ensures next == null && state == Queued
    {
      next, state := null, Queued;
    }
  }

  class Queue {
    var front: NewThread?
    var back: NewThread?
    ghost var nodes: seq<NewThread>
    ghost var owned: set<NewThread>   // at least the queued objects

    ghost predicate Valid()
      reads this, owned
    {
      && Distinct(nodes)
      && (forall i :: 0 <= i < |nodes| ==> nodes[i] in owned)
      && (forall i :: 0 <= i < |nodes| - 1 ==> nodes[i].next == nodes[i + 1])
      && (nodes == [] ==> front == null && back == null)
      && (nodes != [] ==> front == nodes[0] && back == nodes[|nodes| - 1] && nodes[|nodes| - 1].next == null)
    }

    constructor ()
      ensures Valid() && nodes == []
    {
      front, back := null, null;
      nodes, owned := [], {};
    }

    ghost function Prev(i: nat): NewThread?
      requires i <= |nodes|
      reads this
    {
      if i == 0 then null else nodes[i - 1]
    }

    ghost function NodeAt(i: nat): NewThread?
      requires i <= |nodes|
      reads this
    {
      if i == |nodes| then null else nodes[i]
    }

    /** Only the links between the objects may have changed. */
    twostate predicate SameStates()
      reads this, owned
    {
      forall n :: n in owned && n in old(owned) ==> n.state == old(n.state)
    }

    /** The requirements are assertions in the source, except that a thread is queued only once. */
    method PushBack(newThread: NewThread)
      requires Valid() && newThread !in nodes && newThread.next == null && newThread.state == Queued
      modifies this, owned
      ensures Valid() && owned == old(owned) + {newThread} && nodes == old(nodes) + [newThread]
      ensures newThread.state == Queued && SameStates()
    {
      if back != null {
        back.next := newThread;
      } else {
        front := newThread;
      }
      back := newThread;
      nodes := nodes + [newThread];
      owned := owned + {newThread};
    }

    /** Takes out the oldest thread; null for an empty queue. */
    method PopFront() returns (r: NewThread?)
      requires Valid()
      modifies this
      ensures Valid() && owned == old(owned) && SameStates()
      ensures if old(nodes) == [] then r == null && nodes == []
        else r == old(nodes)[0] && nodes == old(nodes)[1..]
    {
      r := front;
      if r != null {
        front := front.next;
        if front == null {
          back := null;
        }
        nodes := nodes[1..];
      }
    }

    /** Takes p, which follows prev, out of the queue. */
    method Unlink(p: NewThread, prev: NewThread?, ghost i: nat)
      requires Valid() && i < |nodes| && p == nodes[i] && prev == Prev(i)
      modifies this, owned
      ensures Valid() && owned == old(owned) && SameStates()
      ensures nodes == old(nodes[..i] + nodes[i + 1..]) && p.next == null
    {
      if p == front {
        front := p.next;
      }
      if p == back {
        back := prev;
      }
      if prev != null {
        prev.next := p.next;
      }
      p.next := null;
      nodes := nodes[..i] + nodes[i + 1..];
    }

    /** Takes the thread out from wherever it is in the queue; a thread not in the queue is left alone. */
    method Remove(newThread: NewThread)
      requires Valid()
      modifies this, owned
      ensures Valid() && owned == old(owned) && SameStates()
      ensures nodes == Without(old(nodes), newThread)
      ensures newThread in old(nodes) ==> newThread.next == null
    {
      var prev: NewThread? := null;
      var p := front;
      ghost var i := 0;
      while p != null
        invariant Valid() && i <= |nodes| && p == NodeAt(i) && prev == Prev(i)
        invariant nodes == old(nodes) && owned == old(owned) && SameStates()
        invariant newThread !in nodes[..i]
        decreases |nodes| - i
      {
        if p == newThread {
          WithoutKeepsOrder(nodes, newThread, i);
          Unlink(p, prev, i);
          return;
        }
        prev := p;
        p := p.next;
        i := i + 1;
      }
    }
  }
}
