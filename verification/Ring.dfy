/** The circular buffers of the kernel: the scheduler's ready and wait queues and the queue of an IPC channel. */
module Ring {
  import opened Arith

  function Wrap(x: nat, c: nat): nat
    requires x < 2 * c
  {
    if x < c then x else x - c
  }

  lemma {:induction false} WrapIsMod(x: nat, c: nat)
    requires x < 2 * c
    ensures x % c == Wrap(x, c)
  {
    if x < c {
      Quotient(c, 0, x, x);
    } else {
      Quotient(c, 1, x - c, x);
    }
  }

  /** The size values that start at head, going round the end of the buffer. */
  function Items<T>(b: seq<T>, head: nat, size: nat): (q: seq<T>)
    requires head < |b| && size <= |b|
    ensures |q| == size && forall i :: 0 <= i < size ==> q[i] == b[Wrap(head + i, |b|)]
  {
    if head + size <= |b| then b[head..head + size] else b[head..] + b[..head + size - |b|]
  }

  class Queue<T(0)> {
    const buffer: array<T>
    var head: nat
    var tail: nat
    var size: nat

    ghost predicate Valid()
      reads this
    {
      && 0 < buffer.Length && head < buffer.Length && size <= buffer.Length
      && tail == Wrap(head + size, buffer.Length)
    }

    /** The queued values, oldest first. */
    ghost function Contents(): (q: seq<T>)
      requires Valid()
      reads this, buffer
      ensures |q| == size
    {
      Items(buffer[..], head, size)
    }

    constructor (capacity: nat)
      requires capacity > 0
      ensures Valid() && Contents() == [] && buffer.Length == capacity && fresh(buffer)
    {
      buffer := new T[capacity];
      head, tail, size := 0, 0, 0;
    }

    method Clear()
      requires 0 < buffer.Length
      modifies this
      ensures Valid() && Contents() == []
    {
      head, tail, size := 0, 0, 0;
    }

    method Enqueue(x: T) returns (ok: bool)
      requires Valid()
      modifies this, buffer
      ensures Valid() && ok == (|old(Contents())| < buffer.Length)
      ensures Contents() == if ok then old(Contents()) + [x] else old(Contents())
    {
      if size >= buffer.Length {
        return false;
      }
      WrapIsMod(tail + 1, buffer.Length);
      buffer[tail] := x;
      tail := (tail + 1) % buffer.Length;
      size := size + 1;
      ok := true;
      assert Contents() == old(Contents()) + [x];
    }

    method Dequeue() returns (ok: bool, x: T)
      requires Valid()
      modifies this
      ensures Valid() && ok == (old(Contents()) != [])
      ensures ok ==> x == old(Contents())[0] && Contents() == old(Contents())[1..]
      ensures !ok ==> Contents() == []
    {
      x := *;
      if size == 0 {
        return false, x;
      }
      x := buffer[head];
      WrapIsMod(head + 1, buffer.Length);
      head := (head + 1) % buffer.Length;
      size := size - 1;
      ok := true;
      assert Contents() == old(Contents())[1..];
    }
  }
}
