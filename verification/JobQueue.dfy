/** The bounded job queue (src/concurrency/job_queue.c): a ring buffer of client file
    descriptors. Each method is one region under the queue's mutex. */
module JobQueues {
  import opened Text

  // ---- what the queue means ---------------------------------------------------------

  datatype Queue = Queue(fds: seq<int>, capacity: nat, shuttingDown: bool)

  /** One pass of the loop in `queue_pop`: sleep, give up, or take the oldest job. */
  datatype PopOutcome = MustWait | Closed | Got(fd: int)

  predicate Accepts(q: Queue) {
    !q.shuttingDown && |q.fds| < q.capacity
  }

  function Pushed(q: Queue, fd: int): (queue: Queue) {
    if Accepts(q) then q.(fds := q.fds + [fd]) else q
  }

  function Popped(q: Queue): (outcome: (Queue, PopOutcome)) {
    if q.fds != [] then (q.(fds := q.fds[1..]), Got(q.fds[0]))
    else (q, if q.shuttingDown then Closed else MustWait)
  }

  // ---- the ring ------------------------------------------------------------------------

  function Slot(head: nat, i: nat, capacity: nat): (slot: nat)
    requires 0 < capacity
    ensures slot < capacity
  {
    (head + i) % capacity
  }

  lemma SmallSlot(head: nat, i: nat, capacity: nat)
    requires head < capacity && i <= capacity
    ensures Slot(head, i, capacity) == if head + i < capacity then head + i else head + i - capacity
  {
    RemainderOnce(head + i, capacity);
  }

  lemma RemainderOnce(x: nat, capacity: nat)
    requires 0 < capacity && x < 2 * capacity
    ensures x % capacity == if x < capacity then x else x - capacity
  {
    var q, r := x / capacity, x % capacity;
    assert x == q * capacity + r;
    assert q * capacity == (q - 2) * capacity + 2 * capacity;
    assert q >= 2 ==> (q - 2) * capacity >= 0;
  }

  /** Stepping around the ring. */
  lemma NextSlot(head: nat, i: nat, capacity: nat)
    requires head < capacity && i < capacity
    ensures (Slot(head, i, capacity) + 1) % capacity == Slot(head, i + 1, capacity)
    ensures Slot(Slot(head, 1, capacity), i, capacity) == Slot(head, i + 1, capacity)
    ensures Slot(head, 0, capacity) == head
  {
    var slot := Slot(head, i, capacity);
    assert (slot + 1) % capacity == Slot(slot, 1, capacity);
    hide Slot;
    SmallSlot(head, 0, capacity);
    SmallSlot(head, i, capacity);
    SmallSlot(head, i + 1, capacity);
    SmallSlot(head, 1, capacity);
    SmallSlot(slot, 1, capacity);
    SmallSlot(Slot(head, 1, capacity), i, capacity);
  }

  /** The jobs a ring holds, oldest first. */
  function Ring(data: seq<int>, head: nat, count: nat): (fds: seq<int>)
    requires head < |data| && count <= |data|
    ensures |fds| == count
  {
    seq(count, i requires 0 <= i < count => data[Slot(head, i, |data|)])
  }

  /** Writing the free slot adds a job and keeps the others, also across the end of
      the array. */
  lemma RingPush(data: seq<int>, head: nat, count: nat, fd: int)
    requires head < |data| && count < |data|
    ensures Ring(data[Slot(head, count, |data|) := fd], head, count + 1) == Ring(data, head, count) + [fd]
  {
    SmallSlot(head, count, |data|);
    forall i | 0 <= i < count ensures Slot(head, i, |data|) != Slot(head, count, |data|) {
      SmallSlot(head, i, |data|);
    }
  }

  lemma RingPop(data: seq<int>, head: nat, count: nat)
    requires head < |data| && 0 < count <= |data|
    ensures Ring(data, head, count) == [data[head]] + Ring(data, (head + 1) % |data|, count - 1)
  {
    var next := (head + 1) % |data|;
    assert next == Slot(head, 1, |data|);
    hide Slot;
    NextSlot(head, 0, |data|);
    forall i | 0 <= i < count - 1 ensures Slot(next, i, |data|) == Slot(head, i + 1, |data|) {
      NextSlot(head, i, |data|);
    }
  }

  class JobQueue {
    const clientFds: array<int>
    var capacity: nat
    var head: nat
    var tail: nat
    var count: nat
    var shuttingDown: bool

    ghost predicate Valid()
      reads this
    {
      && 0 < capacity == clientFds.Length && head < capacity && count <= capacity
      && tail == Slot(head, count, capacity)
    }

    /** The queued jobs, oldest first, read around the ring. */
    ghost function Abs(): (queue: Queue)
      requires Valid()
      reads this, clientFds
    {
      Queue(Ring(clientFds[..], head, count), capacity, shuttingDown)
    }

    /** The successful part of `queue_init`. */
    constructor (size: nat)
      requires size > 0
      ensures Valid() && fresh(clientFds) && Abs() == Queue([], size, false)
    {
      clientFds := new int[size];
      capacity, head, tail, count, shuttingDown := size, 0, 0, 0, false;
    }

    /** `queue_push`; the caller signals `not_empty` when the job was taken. */
    method Push(fd: int) returns (ok: bool)
      requires Valid()
      modifies this, clientFds
      ensures Valid() && ok == Accepts(old(Abs())) && Abs() == Pushed(old(Abs()), fd)
    {
      ok := !shuttingDown && count < capacity;
      if ok {
        hide Slot, Ring;
        NextSlot(head, count, capacity);
        RingPush(clientFds[..], head, count, fd);
        clientFds[tail] := fd;
        tail := (tail + 1) % capacity;
        count := count + 1;
      }
    }

    /** One pass of the loop in `queue_pop`. */
    method TryPop() returns (outcome: PopOutcome)
      requires Valid()
      modifies this
      ensures Valid() && (Abs(), outcome) == Popped(old(Abs()))
    {
      if count == 0 {
        return if shuttingDown then Closed else MustWait;
      }
      hide Slot, Ring;
      NextSlot(head, 0, capacity);
      NextSlot(head, count - 1, capacity);
      RingPop(clientFds[..], head, count);
      outcome := Got(clientFds[head]);
      head := (head + 1) % capacity;
      count := count - 1;
    }

    /** `queue_shutdown`; the caller broadcasts `not_empty`. */
    method Shutdown()
      requires Valid()
      modifies `shuttingDown
      ensures Valid() && Abs() == old(Abs()).(shuttingDown := true)
    {
      shuttingDown := true;
    }
  }

  /** `queue_init` refuses a capacity that is not positive. */
  method QueueInit(capacity: int) returns (queue: JobQueue?)
    ensures queue == null <==> capacity <= 0
    ensures queue != null ==>
      fresh(queue) && queue.Valid() && fresh(queue.clientFds) && queue.Abs() == Queue([], capacity, false)
  {
    if capacity <= 0 {
      return null;
    }
    queue := new JobQueue(capacity);
  }
}
