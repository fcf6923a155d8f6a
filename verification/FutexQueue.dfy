/**
 What the futex wait list means, as a queue of entries: the oldest waiter is at the front.

 FutexList.dfy proves the linked list against these functions, and FutexProtocol.dfy uses them for
 the parts of a futex call that run under the lock.
 */
module FutexQueue {
  import opened Common

  /** A waiting thread, identified by its TCS, and the futex address it waits on. */
  datatype Entry = Entry(tcs: nat, uaddr: nat)

  /** _wake collects at most this many threads at once. */
  const MAX_WAKE: nat := 128

  /** The position of the oldest entry with the given address, or |q|. */
  function FirstMatch(q: seq<Entry>, uaddr: nat): (i: nat)
    ensures i <= |q|
    ensures i < |q| ==> q[i].uaddr == uaddr
    ensures forall j: nat :: j < i ==> q[j].uaddr != uaddr
  {
    if q == [] || q[0].uaddr == uaddr then 0 else 1 + FirstMatch(q[1..], uaddr)
  }

  /** The waiters on an address, oldest first. */
  function Matching(q: seq<Entry>, uaddr: nat): seq<nat> {
    if q == [] then []
    else if q[0].uaddr == uaddr then [q[0].tcs] + Matching(q[1..], uaddr)
    else Matching(q[1..], uaddr)
  }

  /** The queue without the n oldest waiters on an address, all others in their order. */
  function WithoutOldest(q: seq<Entry>, uaddr: nat, n: nat): (r: seq<Entry>)
    ensures n == 0 ==> r == q
  {
    if q == [] then []
    else if q[0].uaddr == uaddr && 0 < n then WithoutOldest(q[1..], uaddr, n - 1)
    else [q[0]] + WithoutOldest(q[1..], uaddr, n)
  }

  predicate DistinctThreads(q: seq<Entry>) {
    forall i: nat, j: nat :: i < j < |q| ==> q[i].tcs != q[j].tcs
  }

  /** The queue without the oldest entry of a thread. */
  function WithoutThread(q: seq<Entry>, tcs: nat): seq<Entry> {
    if q == [] then [] else if q[0].tcs == tcs then q[1..] else [q[0]] + WithoutThread(q[1..], tcs)
  }

  lemma {:induction false} WithoutThreadAt(q: seq<Entry>, tcs: nat, i: nat)
    requires i < |q| && q[i].tcs == tcs && forall j: nat :: j < i ==> q[j].tcs != tcs
    ensures WithoutThread(q, tcs) == RemoveAt(q, i)
  {
    if i > 0 {
      WithoutThreadAt(q[1..], tcs, i - 1);
      assert RemoveAt(q, i) == [q[0]] + RemoveAt(q[1..], i - 1);
    } else {
      assert RemoveAt(q, 0) == q[1..];
    }
  }

  lemma {:induction false} WithoutNobody(q: seq<Entry>, tcs: nat)
    requires forall j: nat :: j < |q| ==> q[j].tcs != tcs
    ensures WithoutThread(q, tcs) == q
  {
    if q != [] {
      WithoutNobody(q[1..], tcs);
    }
  }

  /** The queue with every waiter on one address moved to another in place. */
  function Retarget(q: seq<Entry>, uaddr: nat, uaddr2: nat): (r: seq<Entry>)
    ensures |r| == |q|
    ensures forall i: nat :: i < |q| ==>
      r[i] == if q[i].uaddr == uaddr then q[i].(uaddr := uaddr2) else q[i]
  {
    seq(|q|, i requires 0 <= i < |q| => if q[i].uaddr == uaddr then q[i].(uaddr := uaddr2) else q[i])
  }

  /** The threads a wake call takes off the queue. */
  function Woken(q: seq<Entry>, uaddr: nat, val: nat): seq<nat> {
    var all := Matching(q, uaddr);
    all[..Min(Min(val, MAX_WAKE), |all|)]
  }

  /** The queue after a wake call; uaddr2 is 0 unless the rest is requeued. */
  function AfterWake(q: seq<Entry>, uaddr: nat, val: nat, uaddr2: nat): seq<Entry> {
    var rest := WithoutOldest(q, uaddr, Min(val, MAX_WAKE));
    if uaddr2 == 0 then rest else Retarget(rest, uaddr, uaddr2)
  }

  // ---------- one pop at a time ----------

  /** The threads taken out by up to n pops, and the queue they leave. */
  function Pops(q: seq<Entry>, uaddr: nat, n: nat): (seq<nat>, seq<Entry>) {
    var i := FirstMatch(q, uaddr);
    if n == 0 || i == |q| then ([], q) else
      var (taken, rest) := Pops(RemoveAt(q, i), uaddr, n - 1);
      ([q[i].tcs] + taken, rest)
  }

  lemma {:induction false} PopStep(q: seq<Entry>, uaddr: nat, n: nat)
    requires 0 < n
    ensures var i := FirstMatch(q, uaddr);
      if i == |q| then Matching(q, uaddr) == [] && WithoutOldest(q, uaddr, n) == q
      else
        && Matching(q, uaddr) == [q[i].tcs] + Matching(RemoveAt(q, i), uaddr)
        && WithoutOldest(q, uaddr, n) == WithoutOldest(RemoveAt(q, i), uaddr, n - 1)
  {
    if q != [] && q[0].uaddr != uaddr {
      PopStep(q[1..], uaddr, n);
      var i := FirstMatch(q[1..], uaddr);
      if i < |q[1..]| {
        assert RemoveAt(q, i + 1) == [q[0]] + RemoveAt(q[1..], i);
        var removed := RemoveAt(q, i + 1);
        assert removed[1..] == RemoveAt(q[1..], i);
        assert Matching(removed, uaddr) == Matching(removed[1..], uaddr);
        assert WithoutOldest(removed, uaddr, n - 1) == [q[0]] + WithoutOldest(removed[1..], uaddr, n - 1);
      } else {
        assert WithoutOldest(q, uaddr, n) == [q[0]] + q[1..] == q;
      }
    } else if q != [] {
      assert RemoveAt(q, 0) == q[1..];
    }
  }

  /** Popping one by one removes exactly the min(n, matching) oldest waiters and keeps all others in order. */
  lemma {:induction false} PopsTakeOldest(q: seq<Entry>, uaddr: nat, n: nat)
    ensures Pops(q, uaddr, n) ==
      (Matching(q, uaddr)[..Min(n, |Matching(q, uaddr)|)], WithoutOldest(q, uaddr, n))
  {
    if 0 < n {
      PopStep(q, uaddr, n);
      var i := FirstMatch(q, uaddr);
      if i < |q| {
        PopsTakeOldest(RemoveAt(q, i), uaddr, n - 1);
        var all, rest := Matching(q, uaddr), Matching(RemoveAt(q, i), uaddr);
        assert all[..Min(n, |all|)] == [q[i].tcs] + rest[..Min(n - 1, |rest|)];
      }
    }
  }

  lemma {:induction false} MatchingAfter(q: seq<Entry>, uaddr: nat, n: nat)
    ensures n <= |Matching(q, uaddr)| ==> Matching(WithoutOldest(q, uaddr, n), uaddr) == Matching(q, uaddr)[n..]
    ensures n > |Matching(q, uaddr)| ==> Matching(WithoutOldest(q, uaddr, n), uaddr) == []
  {
    if q != [] {
      if q[0].uaddr == uaddr && 0 < n {
        MatchingAfter(q[1..], uaddr, n - 1);
      } else {
        MatchingAfter(q[1..], uaddr, n);
      }
    }
  }

  // ---------- what a wake call does to each waiter ----------

  /** Waiters on other addresses are untouched, whoever is woken. */
  lemma {:induction false} OthersKeepOrder(q: seq<Entry>, uaddr: nat, n: nat, other: nat)
    requires other != uaddr
    ensures Matching(WithoutOldest(q, uaddr, n), other) == Matching(q, other)
  {
    if q != [] {
      OthersKeepOrder(q[1..], uaddr, if q[0].uaddr == uaddr && 0 < n then n - 1 else n, other);
    }
  }

  /** Every thread that was queued is afterwards either woken or still queued, and no thread is added. */
  lemma {:induction false} WokenOrQueued(q: seq<Entry>, uaddr: nat, n: nat, tcs: nat)
    ensures Queued(q, tcs) <==>
      tcs in Matching(q, uaddr)[..Min(n, |Matching(q, uaddr)|)] || Queued(WithoutOldest(q, uaddr, n), tcs)
  {
    if q != [] {
      var all, all' := Matching(q, uaddr), Matching(q[1..], uaddr);
      QueuedSplit(q, tcs);
      if q[0].uaddr == uaddr && 0 < n {
        WokenOrQueued(q[1..], uaddr, n - 1, tcs);
        assert all[..Min(n, |all|)] == [q[0].tcs] + all'[..Min(n - 1, |all'|)];
      } else {
        WokenOrQueued(q[1..], uaddr, n, tcs);
        QueuedSplit(WithoutOldest(q, uaddr, n), tcs);
        assert WithoutOldest(q, uaddr, n)[1..] == WithoutOldest(q[1..], uaddr, n);
      }
    }
  }

  predicate Queued(q: seq<Entry>, tcs: nat) {
    exists i: nat :: i < |q| && q[i].tcs == tcs
  }

  lemma QueuedSplit(q: seq<Entry>, tcs: nat)
    requires q != []
    ensures Queued(q, tcs) <==> q[0].tcs == tcs || Queued(q[1..], tcs)
  {
    if i: nat :| i < |q| && q[i].tcs == tcs && 0 < i {
      assert q[1..][i - 1].tcs == tcs;
    }
    if j: nat :| j < |q[1..]| && q[1..][j].tcs == tcs {
      assert q[j + 1].tcs == tcs;
    }
  }

  /** After a requeue nobody waits on uaddr, and the rest follows on uaddr2 behind no one it was before. */
  lemma {:induction false} RetargetMatching(q: seq<Entry>, uaddr: nat, uaddr2: nat)
    requires uaddr != uaddr2
    ensures Matching(Retarget(q, uaddr, uaddr2), uaddr) == []
    ensures forall i: nat :: i < |q| ==> Retarget(q, uaddr, uaddr2)[i].tcs == q[i].tcs
    ensures forall other: nat :: other != uaddr && other != uaddr2 ==>
      Matching(Retarget(q, uaddr, uaddr2), other) == Matching(q, other)
  {
    if q != [] {
      RetargetMatching(q[1..], uaddr, uaddr2);
      assert Retarget(q, uaddr, uaddr2)[1..] == Retarget(q[1..], uaddr, uaddr2);
    }
  }
}
