/** The message queue of src/c/queue.c: a circular buffer of 256 vars with
    a start index, an end index and a size. Locking and blocking are left
    out; the buffer logic is modelled sequentially. */
module MessageQueue {
  import opened PpVar

  const MAX_QUEUE_SIZE: nat := 256

  /** The `n` slots of a circular buffer from `start` on. */
  function Window(buffer: seq<Var>, start: nat, n: nat): (r: seq<Var>)
    requires |buffer| == MAX_QUEUE_SIZE
    ensures |r| == n
  {
    seq(n, i requires 0 <= i < n => buffer[(start + i) % MAX_QUEUE_SIZE])
  }

  /** Writing the slot just past a window extends it by that message. */
  lemma WindowPush(buffer: seq<Var>, start: nat, n: nat, x: Var)
    requires |buffer| == MAX_QUEUE_SIZE && start < MAX_QUEUE_SIZE && n < MAX_QUEUE_SIZE
    ensures Window(buffer[(start + n) % MAX_QUEUE_SIZE := x], start, n + 1) == Window(buffer, start, n) + [x]
  {
    var b := buffer[(start + n) % MAX_QUEUE_SIZE := x];
    var w := Window(b, start, n + 1);
    forall i | 0 <= i < n
      ensures w[i] == Window(buffer, start, n)[i]
    {
      assert (start + i) % MAX_QUEUE_SIZE != (start + n) % MAX_QUEUE_SIZE;
    }
  }

  /** A non-empty window is its first slot followed by the window one
      place further on. */
  lemma WindowPop(buffer: seq<Var>, start: nat, n: nat)
    requires |buffer| == MAX_QUEUE_SIZE && start < MAX_QUEUE_SIZE && 0 < n
    ensures Window(buffer, start, n) == [buffer[start]] + Window(buffer, (start + 1) % MAX_QUEUE_SIZE, n - 1)
  {
    var next := (start + 1) % MAX_QUEUE_SIZE;
    var rest, whole := Window(buffer, next, n - 1), Window(buffer, start, n);
    forall i | 0 <= i < |rest|
      ensures rest[i] == whole[i + 1]
    {
      ModStep(start, i);
    }
  }

  lemma ModStep(start: nat, i: nat)
    requires start < MAX_QUEUE_SIZE
    ensures ((start + 1) % MAX_QUEUE_SIZE + i) % MAX_QUEUE_SIZE == (start + i + 1) % MAX_QUEUE_SIZE
  {
    if start + 1 == MAX_QUEUE_SIZE {
      assert (start + 1) % MAX_QUEUE_SIZE == 0;
      assert (start + i + 1) % MAX_QUEUE_SIZE == i % MAX_QUEUE_SIZE;
    }
  }

  class Queue {
    /** `s_queue`. */
    var slots: array<Var>
    /** `s_queue_start`, `s_queue_end` and `s_queue_size`. */
    var start: nat
    var end: nat
    var size: nat

    /** The indices stay in the buffer and `end` is always `size` places
        after `start`, modulo the buffer size. */
    ghost predicate Valid()
      reads this
    {
      slots.Length == MAX_QUEUE_SIZE && start < MAX_QUEUE_SIZE && end < MAX_QUEUE_SIZE
      && size <= MAX_QUEUE_SIZE && end == (start + size) % MAX_QUEUE_SIZE
    }

    /** The queued messages, oldest first. */
    function Contents(): (r: seq<Var>)
      reads this, slots
      requires Valid()
      ensures |r| == size
    {
      Window(slots[..], start, size)
    }

    constructor()
      ensures Valid() && Contents() == []
    {
      slots := new Var[MAX_QUEUE_SIZE];
      start, end, size := 0, 0, 0;
    }

    /** `nb_queue_isempty`. */
    method IsEmpty() returns (b: bool)
      requires Valid()
      ensures b <==> Contents() == []
    {
      b := size == 0;
    }

    /** `nb_queue_isfull`. */
    method IsFull() returns (b: bool)
      requires Valid()
      ensures b <==> |Contents()| == MAX_QUEUE_SIZE
    {
      b := size == MAX_QUEUE_SIZE;
    }

    /** `nb_queue_enqueue`: a full queue drops the message. */
    method Enqueue(message: Var) returns (ok: bool)
      requires Valid()
      modifies this, slots
      ensures Valid() && slots == old(slots)
      ensures ok <==> old(size) < MAX_QUEUE_SIZE
      ensures Contents() == if ok then old(Contents()) + [message] else old(Contents())
      ensures !ok ==> start == old(start) && end == old(end) && size == old(size)
    {
      if size == MAX_QUEUE_SIZE {
        return false;
      }
      ghost var buffer := slots[..];
      slots[end] := message;
      assert slots[..] == buffer[end := message];
      WindowPush(buffer, start, size, message);
      end := (end + 1) % MAX_QUEUE_SIZE;
      size := size + 1;
      ok := true;
    }

    /** `nb_queue_dequeue` once a message is available: the oldest
        message leaves the queue. */
    method Dequeue() returns (message: Var)
      requires Valid() && size > 0
      modifies this
      ensures Valid() && slots == old(slots)
      ensures [message] + Contents() == old(Contents())
    {
      WindowPop(slots[..], start, size);
      message := slots[start];
      start := (start + 1) % MAX_QUEUE_SIZE;
      size := size - 1;
    }
  }

}
