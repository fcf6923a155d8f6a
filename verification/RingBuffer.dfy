/**
 The circular byte buffer of src/ert/common/ringbuffer.c, and the listener backlog that stores
 connection pointers in one (src/ert/enclave/internalsock.c).
 */
module RingBuffer {
  import opened Common

  newtype byte = x: int | 0 <= x < 256

  /** The bytes that remain stored, and the bytes handed out, when up to size bytes are read. */
  function AfterRead(stored: seq<byte>, size: nat): seq<byte> {
    stored[Min(size, |stored|)..]
  }

  /** The bytes stored after offering data to a buffer with the given capacity. */
  function AfterWrite(stored: seq<byte>, capacity: nat, data: seq<byte>): seq<byte>
    requires |stored| <= capacity
  {
    stored + data[..Min(|data|, capacity - |stored|)]
  }

  /** The bytes stored in the array contents b, oldest first, for given indices. */
  function Window(b: seq<byte>, front: nat, back: nat, full: bool): seq<byte>
    requires front < |b| && back < |b|
  {
    if front < back then b[front..back]
    else if front == back && !full then []
    else b[front..] + b[..back]
  }

  /** (front + n) % capacity, for an n that stops at the array end. */
  function Advance(front: nat, n: nat, capacity: nat): (r: nat)
    requires front + n <= capacity && 0 < capacity
    ensures r == if front + n == capacity then 0 else front + n
  {
    (front + n) % capacity
  }

  lemma WindowAfterRead(b: seq<byte>, front: nat, back: nat, full: bool, n: nat)
    requires front < |b| && back < |b| && (full ==> front == back) && (front == back ==> full)
    requires n <= (if back > front then back else |b|) - front && (n == 0 ==> !full)
    ensures n <= |Window(b, front, back, full)|
    ensures b[front..front + n] == Window(b, front, back, full)[..n]
    ensures Window(b, Advance(front, n, |b|), back, false) == Window(b, front, back, full)[n..]
  {
  }

  /** now is was with data copied to the given offset. */
  ghost predicate Copied(was: seq<byte>, now: seq<byte>, offset: nat, data: seq<byte>) {
    && |now| == |was| && offset + |data| <= |was|
    && (forall k: nat :: offset <= k < offset + |data| ==> now[k] == data[k - offset])
    && (forall k: nat :: k < |was| && !(offset <= k < offset + |data|) ==> now[k] == was[k])
  }

  lemma WindowAfterWrite(b: seq<byte>, b': seq<byte>, front: nat, back: nat, data: seq<byte>)
    requires front < |b| && back < |b| && Copied(b, b', back, data)
    requires 0 < |data| <= (if front > back then front else |b|) - back
    ensures var back' := Advance(back, |data|, |b|);
      Window(b', front, back', back' == front) == Window(b, front, back, false) + data
  {
  }

  /** What one read pass does to the stored bytes, the caller's buffer and the front index. */
  ghost predicate ReadsSome(
    stored: seq<byte>, left: seq<byte>, was: seq<byte>, now: seq<byte>, front: nat, front': nat,
    offset: nat, size: nat, n: nat)
  {
    && n <= Min(size, |stored|) && (n == Min(size, |stored|) || (front != 0 && front' == 0))
    && left == stored[n..] && offset + n <= |was| && Copied(was, now, offset, stored[..n])
  }

  lemma PassReads(
    b: seq<byte>, front: nat, back: nat, full: bool, was: seq<byte>, now: seq<byte>, offset: nat, size: nat, n: nat)
    requires front < |b| && back < |b| && (full ==> front == back) && (front == back ==> full) && 0 < size
    requires n == Min(size, (if back > front then back else |b|) - front)
    requires Copied(was, now, offset, b[front..front + n])
    ensures ReadsSome(Window(b, front, back, full), Window(b, Advance(front, n, |b|), back, false), was, now,
      front, Advance(front, n, |b|), offset, size, n)
  {
    WindowAfterRead(b, front, back, full, n);
  }

  /** Two passes, of which the second starts at the front of the array if the first one stopped early, read it all. */
  lemma TwoReadPasses(
    stored: seq<byte>, mid: seq<byte>, left: seq<byte>, was: seq<byte>, between: seq<byte>, now: seq<byte>,
    f0: nat, f1: nat, f2: nat, offset: nat, size: nat, n1: nat, n2: nat)
    requires offset + size <= |was| && n1 <= size
    requires ReadsSome(stored, mid, was, between, f0, f1, offset, size, n1)
    requires ReadsSome(mid, left, between, now, f1, f2, offset + n1, size - n1, n2)
    ensures n1 + n2 == Min(size, |stored|) && left == AfterRead(stored, size)
    ensures Copied(was, now, offset, stored[..n1 + n2])
  {
    assert stored[..n1 + n2] == stored[..n1] + stored[n1..][..n2];
  }

  /** What one write pass does to the stored bytes and the back index. */
  predicate WritesSome(
    stored: seq<byte>, more: seq<byte>, capacity: nat, data: seq<byte>, back: nat, back': nat, n: nat)
    requires |stored| <= capacity
  {
    && n <= Min(|data|, capacity - |stored|) && (n == Min(|data|, capacity - |stored|) || (back != 0 && back' == 0))
    && more == stored + data[..n]
  }

  lemma TwoWritePasses(
    stored: seq<byte>, mid: seq<byte>, more: seq<byte>, capacity: nat, data: seq<byte>,
    b0: nat, b1: nat, b2: nat, n1: nat, n2: nat)
    requires |stored| <= capacity && n1 <= |data| && |mid| <= capacity
    requires WritesSome(stored, mid, capacity, data, b0, b1, n1)
    requires WritesSome(mid, more, capacity, data[n1..], b1, b2, n2)
    ensures n1 + n2 == Min(|data|, capacity - |stored|) && more == AfterWrite(stored, capacity, data)
  {
    assert data[..n1 + n2] == data[..n1] + data[n1..][..n2];
  }

  /** memcpy of n bytes between two arrays. */
  method CopyFrom(dst: array<byte>, to: nat, src: array<byte>, from: nat, n: nat)
    requires dst != src && to + n <= dst.Length && from + n <= src.Length
    modifies dst
    ensures Copied(old(dst[..]), dst[..], to, src[from..from + n])
  {
    forall k | 0 <= k < n {
      dst[to + k] := src[from + k];
    }
  }

  class Ring {
    const buf: array<byte>
    var front: nat
    var back: nat
    var full: bool

    ghost predicate Valid()
      reads this
    {
      && 0 < buf.Length
      && front < buf.Length && back < buf.Length
      && (full ==> front == back)
    }

    /** The stored bytes, oldest first. */
    ghost function Stored(): (s: seq<byte>)
      requires Valid()
      reads this, buf
      ensures |s| <= buf.Length
      ensures full <==> |s| == buf.Length
    {
      Window(buf[..], front, back, full)
    }

    constructor (size: nat)
      requires 0 < size
      ensures Valid() && fresh(buf) && buf.Length == size && Stored() == []
    {
      buf := new byte[size](_ => 0);
      front, back, full := 0, 0, false;
    }

    method Empty() returns (empty: bool)
      requires Valid()
      ensures empty <==> Stored() == []
    {
      return front == back && !full;
    }

    /** One pass of a read: copies the stored bytes up to the end of the array at most. */
    method ReadPass(buffer: array<byte>, offset: nat, size: nat) returns (n: nat)
      requires Valid() && buffer != buf && offset + size <= buffer.Length
      modifies this`front, this`full, buffer
      ensures Valid()
      ensures ReadsSome(old(Stored()), Stored(), old(buffer[..]), buffer[..], old(front), front, offset, size, n)
    {
      if size == 0 || (front == back && !full) {
        return 0;
      }
      var end := if back > front then back else buf.Length;
      n := end - front;
      if n > size {
        n := size;
      }
      ghost var b, was := buf[..], buffer[..];
      CopyFrom(buffer, offset, buf, front, n);
      assert buf[..] == b;
      PassReads(b, front, back, full, was, buffer[..], offset, size, n);
      front := Advance(front, n, buf.Length);
      full := false;
    }

    /** Reads up to size bytes into buffer at offset; two passes suffice across the wrap. */
    method Read(buffer: array<byte>, offset: nat, size: nat) returns (n: nat)
      requires Valid() && buffer != buf && offset + size <= buffer.Length
      modifies this`front, this`full, buffer
      ensures Valid()
      ensures n == Min(size, |old(Stored())|)
      ensures Copied(old(buffer[..]), buffer[..], offset, old(Stored())[..n])
      ensures Stored() == AfterRead(old(Stored()), size)
    {
      ghost var stored, was, f0 := Stored(), buffer[..], front;
      var n1 := ReadPass(buffer, offset, size);
      ghost var mid, between, f1 := Stored(), buffer[..], front;
      var n2 := ReadPass(buffer, offset + n1, size - n1);
      n := n1 + n2;
      TwoReadPasses(stored, mid, Stored(), was, between, buffer[..], f0, f1, front, offset, size, n1, n2);
    }

    /** One pass of a write: copies up to the end of the free space before the array end. */
    method WritePass(buffer: array<byte>, offset: nat, size: nat) returns (n: nat)
      requires Valid() && buffer != buf && offset + size <= buffer.Length
      modifies this`back, this`full, buf
      ensures Valid()
      ensures WritesSome(old(Stored()), Stored(), buf.Length, buffer[offset..offset + size], old(back), back, n)
    {
      if size == 0 || full {
        return 0;
      }
      var end := if front > back then front else buf.Length;
      n := end - back;
      if n > size {
        n := size;
      }
      assert buffer[offset..offset + size][..n] == buffer[offset..offset + n];
      ghost var b := buf[..];
      CopyFrom(buf, back, buffer, offset, n);
      WindowAfterWrite(b, buf[..], front, back, buffer[offset..offset + n]);
      back := Advance(back, n, buf.Length);
      full := back == front;
    }

    /** Stores as many of the size bytes of buffer at offset as fit; two passes suffice across the wrap. */
    method Write(buffer: array<byte>, offset: nat, size: nat) returns (n: nat)
      requires Valid() && buffer != buf && offset + size <= buffer.Length
      modifies this`back, this`full, buf
      ensures Valid()
      ensures n == Min(size, buf.Length - |old(Stored())|)
      ensures Stored() == AfterWrite(old(Stored()), buf.Length, buffer[offset..offset + size])
    {
      ghost var stored, b0 := Stored(), back;
      ghost var data := buffer[offset..offset + size];
      var n1 := WritePass(buffer, offset, size);
      ghost var mid, b1 := Stored(), back;
      assert data[n1..] == buffer[offset + n1..offset + n1 + (size - n1)];
      var n2 := WritePass(buffer, offset + n1, size - n1);
      n := n1 + n2;
      TwoWritePasses(stored, mid, Stored(), buf.Length, data, b0, b1, back, n1, n2);
    }
  }

  // ---------- runs of reads and writes ----------

  datatype Op = Put(data: seq<byte>) | Take(size: nat)

  /** The stored bytes, all bytes handed out and all bytes accepted, after a run on an empty buffer. */
  function Run(capacity: nat, ops: seq<Op>): (r: (seq<byte>, seq<byte>, seq<byte>))
    ensures |r.0| <= capacity
  {
    if ops == [] then ([], [], []) else
      var (stored, taken, accepted) := Run(capacity, ops[..|ops| - 1]);
      match ops[|ops| - 1]
      case Put(data) =>
        var n := Min(|data|, capacity - |stored|);
        (AfterWrite(stored, capacity, data), taken, accepted + data[..n])
      case Take(size) =>
        (AfterRead(stored, size), taken + stored[..Min(size, |stored|)], accepted)
  }

  /** Nothing is lost, duplicated or reordered: what was read, then what is stored, is what was accepted. */
  lemma {:induction false} BytesConserved(capacity: nat, ops: seq<Op>)
    ensures var (stored, taken, accepted) := Run(capacity, ops); taken + stored == accepted
  {
    if ops != [] {
      BytesConserved(capacity, ops[..|ops| - 1]);
    }
  }

  // ---------- the listener backlog: pointers stored as bytes ----------

  const POINTER_SIZE: nat := 8

  /** A pointer as the bytes that are copied into and out of the buffer. */
  type Pointer = p: seq<byte> | |p| == POINTER_SIZE witness seq(POINTER_SIZE, _ => 0)

  function Bytes(pointers: seq<Pointer>): (s: seq<byte>)
    ensures |s| == POINTER_SIZE * |pointers|
  {
    if pointers == [] then [] else pointers[0] + Bytes(pointers[1..])
  }

  lemma {:induction false} BytesAppend(pointers: seq<Pointer>, p: Pointer)
    ensures Bytes(pointers + [p]) == Bytes(pointers) + p
  {
    if pointers == [] {
      assert Bytes([p]) == p + Bytes([]);
    } else {
      BytesAppend(pointers[1..], p);
      assert (pointers + [p])[1..] == pointers[1..] + [p];
    }
  }

  /** A pointer is stored whole or, exactly when the backlog is full, not at all. */
  lemma BacklogPush(pointers: seq<Pointer>, backlog: nat, p: Pointer)
    requires |pointers| <= backlog
    ensures AfterWrite(Bytes(pointers), POINTER_SIZE * backlog, p) ==
      if |pointers| < backlog then Bytes(pointers + [p]) else Bytes(pointers)
  {
    BytesAppend(pointers, p);
  }

  /** Reading the size of a pointer takes the oldest pointer out, or nothing from an empty backlog. */
  lemma BacklogPop(pointers: seq<Pointer>)
    ensures pointers == [] ==> AfterRead(Bytes(pointers), POINTER_SIZE) == []
    ensures pointers != [] ==>
      && Bytes(pointers)[..Min(POINTER_SIZE, |Bytes(pointers)|)] == pointers[0]
      && AfterRead(Bytes(pointers), POINTER_SIZE) == Bytes(pointers[1..])
  {
  }
}
