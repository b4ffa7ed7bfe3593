/**
 * The bounded FIFO packet queue of the player's native layer, seen as a
 * sequential state machine: the state is the list of queued elements plus
 * the `is_block` flag.  A call that would wait on a condition variable is
 * modelled by an explicit "would block" outcome; the mutex and the signals
 * are not modelled.
 */
module PacketQueue {
  import opened Wrappers

  /** `QUEUE_MAX_SIZE`: the most elements a queue ever holds. */
  const Capacity: nat := 50

  datatype Queue<T> = Queue(items: seq<T>, isBlock: bool) {
    /** The queue's `size` field. */
    function Size(): nat { |items| }

    /** The capacity invariant every reachable queue keeps. */
    ghost predicate Valid() { |items| <= Capacity }
  }

  /** What a call to the enqueue operation does; `S` is the state type. */
  datatype InOutcome<S> =
    | InWouldBlock          // the caller waits on "not full"
    | Stored(next: S)       // the element was linked in at the tail
    | Dropped(next: S)      // no room and no waiting: the element is discarded

  /** What a call to the dequeue operation does; `None` is the null sentinel. */
  datatype OutOutcome<T, S> =
    | OutWouldBlock                          // the caller waits on "not empty"
    | Returned(element: Option<T>, next: S)

  /** `queue_is_empty`. */
  predicate IsEmpty<T>(q: Queue<T>) { q.Size() == 0 }

  /** `queue_is_full`. */
  predicate IsFull<T>(q: Queue<T>) { q.Size() == Capacity }

  /** `queue_init`: an empty queue in blocking mode. */
  function Init<T>(): (q: Queue<T>)
    ensures q.Valid() && IsEmpty(q) && q.isBlock
    ensures Dequeue(q).OutWouldBlock?
  {
    Queue([], true)
  }

  /**
   * `queue_in`.  The wait loop runs while the queue is full in blocking
   * mode; after it, a queue that still has `Capacity` or more elements
   * discards the element; otherwise the element goes at the tail.
   */
  function Enqueue<T>(q: Queue<T>, x: T): (r: InOutcome<Queue<T>>)
    ensures r.InWouldBlock? <==> IsFull(q) && q.isBlock
    ensures q.Valid() ==> (r.Dropped? <==> IsFull(q) && !q.isBlock)
    ensures r.Stored? ==> r.next.isBlock == q.isBlock
    ensures r.Stored? ==> r.next.Size() == q.Size() + 1
    ensures r.Stored? ==> r.next.items[..q.Size()] == q.items && r.next.items[q.Size()] == x
    ensures r.Dropped? ==> r.next == q
    ensures q.Valid() && (r.Stored? || r.Dropped?) ==> r.next.Valid()
  {
    if IsFull(q) && q.isBlock then InWouldBlock
    else if q.Size() >= Capacity then Dropped(q)
    else Stored(Queue(q.items + [x], q.isBlock))
  }

  /**
   * `queue_out`.  The wait loop runs while the queue is empty in blocking
   * mode; after it, an empty queue yields the null sentinel and is left
   * alone, otherwise the head element is unlinked and returned.
   */
  function Dequeue<T>(q: Queue<T>): (r: OutOutcome<T, Queue<T>>)
    ensures r.OutWouldBlock? <==> IsEmpty(q) && q.isBlock
    ensures r.Returned? && r.element.None? <==> IsEmpty(q) && !q.isBlock
    ensures r.Returned? && r.element.None? ==> r.next == q
    ensures r.Returned? && r.element.Some? ==>
              && [r.element.value] + r.next.items == q.items
              && r.next.isBlock == q.isBlock
    ensures q.Valid() && r.Returned? ==> r.next.Valid()
  {
    if IsEmpty(q) && q.isBlock then OutWouldBlock
    else if q.items == [] then Returned(None, q)
    else Returned(Some(q.items[0]), Queue(q.items[1..], q.isBlock))
  }

  /** `queue_clear`: discards every element and re-arms blocking mode. */
  function Clear<T>(q: Queue<T>): (r: Queue<T>)
    ensures r.Valid() && IsEmpty(r) && r.isBlock
  {
    Queue([], true)
  }

  /** `break_block`: leaves the elements alone and switches waiting off. */
  function BreakBlock<T>(q: Queue<T>): (r: Queue<T>)
    ensures r.items == q.items && !r.isBlock
  {
    q.(isBlock := false)
  }

  /** `queue_destroy`: the state it leaves behind (empty, non-blocking). */
  function Destroy<T>(q: Queue<T>): (r: Queue<T>)
    ensures IsEmpty(r) && !r.isBlock
  {
    Queue([], false)
  }

  /** In blocking mode the two queries say exactly when a call waits. */
  lemma BlockingQueriesDecideWaiting<T>(q: Queue<T>, x: T)
    requires q.isBlock
    ensures IsFull(q) <==> Enqueue(q, x).InWouldBlock?
    ensures IsEmpty(q) <==> Dequeue(q).OutWouldBlock?
  {
  }

  /**
   * In non-blocking mode no call waits: a full queue drops what is
   * enqueued and an empty one hands out the null sentinel.
   */
  lemma NonBlockingNeverWaits<T>(q: Queue<T>, x: T)
    requires q.Valid() && !q.isBlock
    ensures !Enqueue(q, x).InWouldBlock? && !Dequeue(q).OutWouldBlock?
    ensures IsFull(q) <==> Enqueue(q, x) == Dropped(q)
    ensures IsEmpty(q) <==> Dequeue(q) == Returned(None, q)
  {
  }

  /** Enqueue then dequeue on an empty queue hands back the same element. */
  lemma EnqueueThenDequeue<T>(q: Queue<T>, x: T)
    requires IsEmpty(q)
    ensures Enqueue(q, x).Stored?
    ensures Dequeue(Enqueue(q, x).next) == Returned(Some(x), q)
  {
    assert Enqueue(q, x).next.items == [x];
  }

  /**
   * Back-pressure: a producer blocked on a full queue can proceed after
   * one dequeue, and its element then lands at the tail.
   */
  lemma DequeueReleasesBlockedEnqueue<T>(q: Queue<T>, x: T)
    requires q.Valid() && IsFull(q) && q.isBlock
    ensures Enqueue(q, x).InWouldBlock?
    ensures Dequeue(q).Returned? && Dequeue(q).element == Some(q.items[0])
    ensures Enqueue(Dequeue(q).next, x) == Stored(Queue(q.items[1..] + [x], true))
  {
  }

  /**
   * `queue_clear` re-arms blocking mode whatever came before: a consumer
   * waits again and an enqueue is accepted again, even after `break_block`
   * on a full queue.
   */
  lemma ClearRearms<T>(q: Queue<T>, x: T)
    ensures Dequeue(Clear(q)).OutWouldBlock?
    ensures Enqueue(Clear(q), x) == Stored(Queue([x], true))
    ensures Enqueue(Clear(BreakBlock(q)), x) == Stored(Queue([x], true))
  {
  }

  /** `break_block` is idempotent and keeps the capacity invariant. */
  lemma BreakBlockIdempotent<T>(q: Queue<T>)
    ensures BreakBlock(BreakBlock(q)) == BreakBlock(q)
    ensures q.Valid() ==> BreakBlock(q).Valid()
  {
  }
}
