/** The ring buffer: index arithmetic, and the queue as its two callers see it when calls do not overlap. */
module SpscQueue {
  import Fifo
  import opened Wrappers

  function Increment(i: nat, capacity: nat): nat
    requires capacity > 0
  {
    (i + 1) % capacity
  }

  /** The number of slots in use: from tail up to, but not including, head. */
  function Used(head: nat, tail: nat, capacity: nat): (n: nat)
    requires head < capacity && tail < capacity
    ensures n < capacity
  {
    if tail <= head then head - tail else head + capacity - tail
  }

  /** The i-th slot counted from tail. */
  function Slot(tail: nat, i: nat, capacity: nat): (k: nat)
    requires tail < capacity && i < capacity
    ensures k < capacity
  {
    if tail + i < capacity then tail + i else tail + i - capacity
  }

  /** The queued items, oldest first. */
  function Contents<T>(buffer: seq<T>, head: nat, tail: nat): (items: seq<T>)
    requires head < |buffer| && tail < |buffer|
    ensures |items| == Used(head, tail, |buffer|)
  {
    seq(Used(head, tail, |buffer|), i requires 0 <= i < |buffer| => buffer[Slot(tail, i, |buffer|)])
  }

  lemma IncrementWraps(i: nat, capacity: nat)
    requires i < capacity
    ensures Increment(i, capacity) == (if i + 1 == capacity then 0 else i + 1) < capacity
  {
    if i + 1 < capacity {
      assert (i + 1) % capacity == i + 1;
    }
  }

  /** One slot is kept empty: the next head meets tail exactly when capacity - 1 items are queued. */
  lemma FullMeansOneSlotLeft(head: nat, tail: nat, capacity: nat)
    requires head < capacity && tail < capacity && capacity >= 2
    ensures Increment(head, capacity) == tail <==> Used(head, tail, capacity) == capacity - 1
    ensures head == tail <==> Used(head, tail, capacity) == 0
  {
    IncrementWraps(head, capacity);
  }

  /** The slot at head is outside the queue, so writing it changes no queued item. */
  lemma WriteAtHeadIsInvisible<T>(buffer: seq<T>, head: nat, tail: nat, x: T)
    requires head < |buffer| && tail < |buffer|
    ensures Contents(buffer[head := x], head, tail) == Contents(buffer, head, tail)
  {
  }

  /** Advancing head publishes the item at head as the newest. */
  lemma AdvanceHead<T>(buffer: seq<T>, head: nat, tail: nat)
    requires head < |buffer| && tail < |buffer| && Increment(head, |buffer|) != tail
    ensures Increment(head, |buffer|) < |buffer|
    ensures Contents(buffer, Increment(head, |buffer|), tail) == Contents(buffer, head, tail) + [buffer[head]]
  {
    IncrementWraps(head, |buffer|);
  }

  lemma PublishAtHead<T>(buffer: seq<T>, head: nat, tail: nat, x: T)
    requires head < |buffer| && tail < |buffer| && Increment(head, |buffer|) != tail
    ensures Increment(head, |buffer|) < |buffer|
    ensures Contents(buffer[head := x], Increment(head, |buffer|), tail) == Contents(buffer, head, tail) + [x]
  {
    WriteAtHeadIsInvisible(buffer, head, tail, x);
    AdvanceHead(buffer[head := x], head, tail);
    hide Contents;
  }

  /** Advancing tail removes the item at tail, which is the oldest. */
  lemma AdvanceTail<T>(buffer: seq<T>, head: nat, tail: nat)
    requires head < |buffer| && tail < |buffer| && head != tail
    ensures Increment(tail, |buffer|) < |buffer|
    ensures Contents(buffer, head, tail) == [buffer[tail]] + Contents(buffer, head, Increment(tail, |buffer|))
  {
    IncrementWraps(tail, |buffer|);
  }

  /** The ring, its indices and its drop counter stand for the queue q. */
  ghost predicate Represents<T>(buffer: seq<T>, head: nat, tail: nat, dropped: nat, q: Fifo.Fifo<T>) {
    && |buffer| >= 2 && head < |buffer| && tail < |buffer|
    && q.room == |buffer| - 1
    && q.items == Contents(buffer, head, tail)
    && dropped == |q.refused|
    && Fifo.Conserves(q)
  }

  lemma PushRefines<T>(buffer: seq<T>, head: nat, tail: nat, dropped: nat, q: Fifo.Fifo<T>, x: T)
    requires Represents(buffer, head, tail, dropped, q)
    ensures Increment(head, |buffer|) < |buffer|
    ensures Increment(head, |buffer|) != tail <==> |q.items| < |buffer| - 1
    ensures if Increment(head, |buffer|) == tail
      then Represents(buffer, head, tail, dropped + 1, Fifo.Push(q, x))
      else Represents(buffer[head := x], Increment(head, |buffer|), tail, dropped, Fifo.Push(q, x))
  {
    FullMeansOneSlotLeft(head, tail, |buffer|);
    Fifo.PushConserves(q, x);
    hide Fifo.Conserves, Contents, Increment, Used;
    if Increment(head, |buffer|) != tail {
      PublishAtHead(buffer, head, tail, x);
    }
  }

  class SpscQueue<T(0)> {
    const capacity: nat
    const buffer: array<T>
    var head: nat
    var tail: nat
    var dropped: nat
    /** The FIFO this queue stands for. */
    ghost var fifo: Fifo.Fifo<T>

    ghost predicate Valid()
      reads this, buffer
    {
      capacity == buffer.Length && Represents(buffer[..], head, tail, dropped, fifo)
    }

    constructor (capacity: nat)
      requires capacity >= 2
      ensures Valid() && fresh(buffer)
      ensures this.capacity == capacity && fifo == Fifo.Empty(capacity - 1)
    {
      this.capacity := capacity;
      buffer := new T[capacity];
      head, tail, dropped := 0, 0, 0;
      fifo := Fifo.Empty(capacity - 1);
    }

    method Push(item: T) returns (ok: bool)
      requires Valid()
      modifies this`head, this`dropped, this`fifo, buffer
      ensures Valid()
      ensures fifo == Fifo.Push(old(fifo), item)
      ensures ok <==> |old(fifo.items)| < capacity - 1
      ensures dropped == old(dropped) + if ok then 0 else 1
    {
      var next := Increment(head, capacity);
      PushRefines(buffer[..], head, tail, dropped, fifo, item);
      hide Represents, Increment;
      fifo := Fifo.Push(fifo, item);
      if next == tail {
        dropped := dropped + 1;
        return false;
      }
      buffer[head] := item;
      assert buffer[..] == old(buffer[..])[head := item];
      head := next;
      return true;
    }

    method Pop() returns (item: Option<T>)
      requires Valid()
      modifies this`tail, this`fifo
      ensures Valid()
      ensures fifo == Fifo.Pop(old(fifo))
      ensures item == if old(fifo.items) == [] then None else Some(old(fifo.items)[0])
    {
      FullMeansOneSlotLeft(head, tail, capacity);
      Fifo.PopConserves(fifo);
      fifo := Fifo.Pop(fifo);
      if tail == head { return None; }
      AdvanceTail(buffer[..], head, tail);
      item := Some(buffer[tail]);
      tail := Increment(tail, capacity);
    }

    method IsEmpty() returns (empty: bool)
      requires Valid()
      ensures empty <==> fifo.items == []
    {
      FullMeansOneSlotLeft(head, tail, capacity);
      empty := head == tail;
    }
  }
}
