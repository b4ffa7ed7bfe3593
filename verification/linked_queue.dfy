/**
 * The queue as the native code stores it: a `size` counter, `head` and
 * `tail` node pointers and the chain of nodes reachable from `head`.  A
 * pointer is modelled by the element of the node it points to (`None` is
 * null).  Each operation takes the same branches as the native code (it
 * tests `tail` when linking in, `head` when unlinking, `size` in the
 * queries), and the lemmas show that under the representation invariant
 * these tests agree and every operation refines its counterpart in
 * `PacketQueue`.
 */
module LinkedQueue {
  import opened Wrappers
  import opened PacketQueue

  datatype Linked<T> = Linked(size: int, head: Option<T>, tail: Option<T>, nodes: seq<T>, isBlock: bool)

  /**
   * Representation invariant: `size` counts the chain, `head` and `tail`
   * are null exactly when it is empty and otherwise point at its first and
   * last node, and the chain never outgrows the capacity.
   */
  ghost predicate Valid<T>(l: Linked<T>) {
    && l.size == |l.nodes|
    && l.size <= Capacity
    && (l.head.None? <==> l.size == 0)
    && (l.tail.None? <==> l.size == 0)
    && (l.size > 0 ==> l.head == Some(l.nodes[0]) && l.tail == Some(l.nodes[|l.nodes| - 1]))
  }

  /** The abstract queue a representation stands for. */
  function Abs<T>(l: Linked<T>): Queue<T> {
    Queue(l.nodes, l.isBlock)
  }

  /** Lifts `Abs` over the outcome of an enqueue. */
  function AbsIn<T>(r: InOutcome<Linked<T>>): InOutcome<Queue<T>> {
    match r
    case InWouldBlock => InWouldBlock
    case Stored(l) => Stored(Abs(l))
    case Dropped(l) => Dropped(Abs(l))
  }

  /** Lifts `Abs` over the outcome of a dequeue. */
  function AbsOut<T>(r: OutOutcome<T, Linked<T>>): OutOutcome<T, Queue<T>> {
    match r
    case OutWouldBlock => OutWouldBlock
    case Returned(e, l) => Returned(e, Abs(l))
  }

  /** `queue_init`. */
  function LinkedInit<T>(): (l: Linked<T>)
    ensures Valid(l) && Abs(l) == Init()
  {
    Linked(0, None, None, [], true)
  }

  /** `queue_is_empty`: tests the counter only. */
  predicate LinkedIsEmpty<T>(l: Linked<T>) { l.size == 0 }

  /** `queue_is_full`: tests the counter only. */
  predicate LinkedIsFull<T>(l: Linked<T>) { l.size == Capacity }

  /** Under the invariant the counter-based queries agree with the contents. */
  lemma QueriesRefine<T>(l: Linked<T>)
    requires Valid(l)
    ensures LinkedIsEmpty(l) <==> IsEmpty(Abs(l))
    ensures LinkedIsEmpty(l) <==> l.head.None? && l.tail.None?
    ensures LinkedIsFull(l) <==> IsFull(Abs(l))
  {
  }

  /**
   * `queue_in`: after the wait loop, `size >= QUEUE_MAX_SIZE` drops the
   * element; otherwise a new node becomes the whole chain when `tail` is
   * null and is linked after `tail` when it is not.
   */
  function LinkedEnqueue<T>(l: Linked<T>, x: T): (r: InOutcome<Linked<T>>)
    requires Valid(l)
    ensures (r.Stored? || r.Dropped?) ==> Valid(r.next)
    ensures AbsIn(r) == Enqueue(Abs(l), x)
  {
    if LinkedIsFull(l) && l.isBlock then InWouldBlock
    else if l.size >= Capacity then Dropped(l)
    else if l.tail.None? then Stored(Linked(l.size + 1, Some(x), Some(x), [x], l.isBlock))
    else Stored(Linked(l.size + 1, l.head, Some(x), l.nodes + [x], l.isBlock))
  }

  /**
   * `queue_out`: after the wait loop, a null `head` yields the null
   * sentinel; otherwise `head` moves to the next node, `tail` is nulled
   * when that leaves the chain empty, and the old head's element is
   * returned.
   */
  function LinkedDequeue<T>(l: Linked<T>): (r: OutOutcome<T, Linked<T>>)
    requires Valid(l)
    ensures r.Returned? ==> Valid(r.next)
    ensures AbsOut(r) == Dequeue(Abs(l))
  {
    if LinkedIsEmpty(l) && l.isBlock then OutWouldBlock
    else if l.head.None? then Returned(None, l)
    else
      var rest := l.nodes[1..];
      var newHead := if rest == [] then None else Some(rest[0]);
      var newTail := if newHead.None? then None else l.tail;
      Returned(Some(l.head.value), Linked(l.size - 1, newHead, newTail, rest, l.isBlock))
  }

  /** `queue_clear`: frees every node, nulls both ends, re-arms blocking. */
  function LinkedClear<T>(l: Linked<T>): (r: Linked<T>)
    ensures Valid(r) && Abs(r) == Clear(Abs(l))
  {
    Linked(0, None, None, [], true)
  }

  /** `break_block`: only the flag changes. */
  function LinkedBreakBlock<T>(l: Linked<T>): (r: Linked<T>)
    ensures Valid(l) ==> Valid(r)
    ensures Abs(r) == BreakBlock(Abs(l))
  {
    l.(isBlock := false)
  }

  /** `queue_destroy`: frees every node and leaves an empty, non-blocking queue. */
  function LinkedDestroy<T>(l: Linked<T>): (r: Linked<T>)
    ensures Valid(r) && Abs(r) == Destroy(Abs(l))
  {
    Linked(0, None, None, [], false)
  }
}
