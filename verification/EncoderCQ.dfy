/**
 The circular queue of EncoderCQ.cpp over an array.

 Positions run over 0..maxsize and position p is kept in cell p - 1. The source allocates maxsize
 cells, so position 0 has no cell of its own there; here the array has maxsize + 1 cells and
 position 0 uses the last one. Everything else is as written: the full test, size and clear.
 Operations are atomic, and Dequeue may be called only when its wait would end.
 */
module CircularQueue {
  import opened Bytes
  import opened Fifo

  class EncoderCQ<T(0)> {
    const maxsize: nat
    const isWait: bool
    const queue: array<T>
    var front: nat
    var rear: nat
    var isStop: bool

    ghost predicate Valid()
      reads this
    {
      queue.Length == maxsize + 1 && front <= maxsize && rear <= maxsize
    }

    /** The live elements, oldest first. */
    ghost function Items(): seq<T>
      reads this, queue
      requires Valid()
    {
      if front <= rear then queue[front..rear] else queue[front..] + queue[..rear]
    }

    ghost function State(): (r: Ring<T>)
      reads this, queue
      requires Valid()
      ensures ValidRing(r) && Rear(r) == rear
    {
      Ring(front, Queue(maxsize, Items(), isStop, isWait))
    }

    function Cell(position: nat): (cell: nat)
      requires position <= maxsize
      ensures cell <= maxsize
      ensures position != 0 ==> cell == position - 1 < maxsize
    {
      if position == 0 then maxsize else position - 1
    }

    constructor (isWait: bool, size: nat)
      ensures Valid() && fresh(queue)
      ensures State() == Ring(0, Queue(size, [], false, isWait))
    {
      maxsize := size;
      this.isWait := isWait;
      front := 0;
      rear := 0;
      isStop := false;
      queue := new T[size + 1];
    }

    /** The live elements handed to delete, in the order the two loops visit them. */
    method Clear() returns (freed: seq<T>)
      requires Valid()
      modifies this
      ensures Valid() && State() == ShippedStep(old(State()), Op.Clear).0
      ensures old(front <= rear) ==> freed == old(Items())
      // A wrapped queue keeps the element at position 0, which lies maxsize - front elements behind the oldest.
      ensures old(rear < front) ==>
                maxsize - old(front) < |old(Items())|
                && freed == old(Items())[maxsize - old(front) + 1..] + old(Items())[..maxsize - old(front)]
    {
      freed := [];
      if rear >= front {
        for i := front to rear
          invariant freed == queue[front..i]
        {
          freed := freed + [queue[i]];
        }
      } else {
        for i := 0 to rear
          invariant freed == queue[..i]
        {
          freed := freed + [queue[i]];
        }
        for i := front to maxsize
          invariant freed == queue[..rear] + queue[front..i]
        {
          freed := freed + [queue[i]];
        }
        assert Items()[maxsize - front + 1..] == queue[..rear];
        assert Items()[..maxsize - front] == queue[front..maxsize];
      }
      rear := 0;
      front := 0;
    }

    method Size() returns (n: int)
      requires Valid()
      ensures n == |Items()| - (if front <= rear then 0 else 1)
    {
      n := if rear >= front then rear - front else maxsize + rear - front;
    }

    /** enqueue with the full test as written. */
    method Enqueue(element: T) returns (msg: Msg)
      requires Valid()
      modifies this, queue
      ensures Valid() && isStop == old(isStop) && front == old(front)
      ensures (State(), Reply(msg, None)) == ShippedStep(old(State()), Op.Enqueue(element))
      ensures !isStop && old(|Items()|) < maxsize ==> msg == Success && Items() == old(Items()) + [element]
      ensures msg != Success ==> Items() == old(Items()) && rear == old(rear)
    {
      if isStop {
        return Stopped;
      }
      if front == rear + 1 {
        return Full;
      }
      rear := if rear == maxsize then 0 else rear + 1;
      queue[Cell(rear)] := element;
      msg := Success;
      assert Items() == if rear == front then [] else old(Items()) + [element];
    }

    /** enqueue with the full test taken modulo the number of positions: the bounded FIFO in every state. */
    method EnqueueIntended(element: T) returns (msg: Msg)
      requires Valid()
      modifies this, queue
      ensures Valid() && isStop == old(isStop) && front == old(front)
      ensures (State().q, Reply(msg, None)) == Step(old(State()).q, Op.Enqueue(element))
    {
      if isStop {
        return Stopped;
      }
      if front == (if rear == maxsize then 0 else rear + 1) {
        return Full;
      }
      rear := if rear == maxsize then 0 else rear + 1;
      queue[Cell(rear)] := element;
      msg := Success;
      assert Items() == old(Items()) + [element];
    }

    method Dequeue() returns (msg: Msg, element: Option<T>)
      requires Valid()
      requires front == rear && isWait ==> isStop
      modifies this
      ensures Valid() && isStop == old(isStop) && rear == old(rear)
      ensures (State(), Reply(msg, element)) == ShippedStep(old(State()), Op.Dequeue)
      ensures !isStop && old(Items()) != [] ==>
                msg == Success && element == Some(old(Items())[0]) && Items() == old(Items())[1..]
    {
      if front == rear {
        if !isWait {
          return NoElement, None;
        }
      }
      if isStop {
        return Stopped, None;
      }
      front := if front == maxsize then 0 else front + 1;
      element := Some(queue[Cell(front)]);
      msg := Success;
      assert old(Items()) == [element.value] + Items();
    }

    method Start()
      requires Valid()
      modifies this
      ensures Valid() && State() == ShippedStep(old(State()), Op.Start).0
    {
      isStop := false;
    }

    method Stop()
      requires Valid()
      modifies this
      ensures Valid() && State() == ShippedStep(old(State()), Op.Stop).0
    {
      isStop := true;
    }
  }

  /**
   The source's own index, position - 1 into maxsize cells, is in range unless the position is 0;
   a live element sits at position 0 iff the queue is wrapped.
   */
  lemma PositionZeroIsLiveIffWrapped(front: nat, rear: nat, maxsize: nat)
    requires front <= maxsize && rear <= maxsize
    ensures (exists p: int | 0 <= p <= maxsize :: Live(p, front, rear) && !(0 <= p - 1 < maxsize)) <==> rear < front
  {
    if rear < front {
      assert Live(0, front, rear);
    }
  }

  /** Position p holds an element. */
  predicate Live(p: int, front: nat, rear: nat) {
    if front <= rear then front < p <= rear else p > front || p <= rear
  }
}
