/**
 The byte ring shared by the outbound writer (internal/rtp/rtp_handler.go) and the
 packetizer (internal/audio/packetizer.go): a fixed array with a head, a tail and a
 count, proved to be a bounded FIFO queue.
 */
module RingBuffer {
  import opened Bytes

  /** Position of the i-th queued byte. */
  function Slot(head: nat, i: nat, capacity: nat): (r: nat)
    requires head < capacity && i <= capacity
    ensures r < capacity && r == (head + i) % capacity
  {
    WrapOnce(head + i, capacity);
    if head + i < capacity then head + i else head + i - capacity
  }

  class Ring {
    const buf: array<Byte>
    var head: nat
    var tail: nat
    var count: nat

    ghost predicate Valid()
      reads this
    {
      && 0 < buf.Length
      && head < buf.Length
      && count <= buf.Length
      && tail == (head + count) % buf.Length
    }

    /** The abstract queue, oldest byte first. */
    ghost function Queue(): (q: seq<Byte>)
      requires Valid()
      reads this, buf
    {
      seq(count, i requires 0 <= i < count reads this, buf requires Valid() => buf[Slot(head, i, buf.Length)])
    }

    constructor (capacity: nat)
      requires capacity > 0
      ensures Valid() && fresh(buf) && buf.Length == capacity && Queue() == []
    {
      buf := new Byte[capacity];
      head, tail, count := 0, 0, 0;
    }

    /** Copy `data` behind the tail, in two parts where the ring wraps. */
    method CopyIn(data: seq<Byte>)
      requires Valid() && |data| <= buf.Length - count
      modifies buf
      ensures forall i :: 0 <= i < count ==> buf[Slot(head, i, buf.Length)] == old(Queue())[i]
      ensures forall j :: 0 <= j < |data| ==> buf[Slot(tail, j, buf.Length)] == data[j]
    {
      var capacity := buf.Length;
      var firstPart := Min(capacity - tail, |data|);
      assert tail == Slot(head, count, capacity);
      forall i | 0 <= i < firstPart {
        buf[tail + i] := data[i];
      }
      if |data| > firstPart {
        forall i | 0 <= i < |data| - firstPart {
          buf[i] := data[firstPart + i];
        }
      }
    }

    /** Append what fits; an overfull push loses only its newest bytes. */
    method Push(data: seq<Byte>) returns (n: nat)
      requires Valid()
      modifies this, buf
      ensures Valid()
      ensures n == Min(|data|, buf.Length - |old(Queue())|)
      ensures Queue() == old(Queue()) + data[..n]
    {
      ghost var before := Queue();
      var capacity := buf.Length;
      n := |data|;
      if n > capacity - count {
        n := Max(capacity - count, 0);
      }
      if n > 0 {
        CopyIn(data[..n]);
        ghost var oldTail, oldCount := tail, count;
        SlotAdvance(head, count, n, capacity);
        tail := (tail + n) % capacity;
        count := count + n;
        forall i | 0 <= i < count
          ensures Queue()[i] == (before + data[..n])[i]
        {
          if i >= oldCount {
            SlotAdvance(head, oldCount, i - oldCount, capacity);
          }
        }
      }
      assert Queue() == before + data[..n];
    }

    /** Advance the head over n queued bytes. */
    method Discard(n: nat)
      requires Valid() && n <= count
      modifies this
      ensures Valid() && Queue() == old(Queue())[n..]
    {
      ghost var before := Queue();
      var capacity := buf.Length;
      SlotAdvance(head, n, count - n, capacity);
      ghost var oldHead := head;
      head := (head + n) % capacity;
      count := count - n;
      forall i | 0 <= i < count
        ensures buf[Slot(head, i, capacity)] == before[n + i]
      {
        assert head == Slot(oldHead, n, capacity);
      }
      assert Queue() == before[n..];
    }

    /** Copy up to `want` queued bytes to the front of `dst`, in two parts where the ring wraps. */
    method CopyOut(dst: array<Byte>, want: nat)
      requires Valid() && want <= dst.Length && dst != buf
      modifies dst
      ensures Valid()
      ensures dst[..Min(want, count)] == Queue()[..Min(want, count)]
      ensures dst[Min(want, count)..] == old(dst[Min(want, count)..])
    {
      var capacity := buf.Length;
      var firstPart := Min(capacity - head, Min(want, count));
      forall i | 0 <= i < firstPart {
        dst[i] := buf[head + i];
      }
      if want > firstPart && count > firstPart {
        var secondPart := Min(want - firstPart, count - firstPart);
        forall i | 0 <= i < secondPart {
          dst[firstPart + i] := buf[i];
        }
      }
    }
  }

  /** Walking a and then b slots is walking a + b slots. */
  lemma SlotAdvance(head: nat, a: nat, b: nat, capacity: nat)
    requires head < capacity && a + b <= capacity
    ensures Slot(Slot(head, a, capacity), b, capacity) == Slot(head, a + b, capacity)
  {
  }
}
