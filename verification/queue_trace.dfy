/**
 * Runs of queue operations.  Every completed call of the native queue takes
 * effect atomically under the queue's mutex once its wait loop has exited,
 * so any concurrent history of completed calls is some sequence of steps,
 * each taken in a state where it does not wait.  `Execute` replays such a
 * sequence and records what was accepted and what was handed out.
 */
module QueueTrace {
  import opened Wrappers
  import opened PacketQueue

  datatype Op<T> = In(x: T) | Out | ClearOp | BreakOp

  /** One step: `Moved` records the elements accepted and delivered by it. */
  datatype StepResult<T> = Waits | Moved(next: Queue<T>, accepted: seq<T>, delivered: seq<T>)

  /** A replay either reaches a call that would wait or finishes. */
  datatype RunResult<T> = Stuck | Finished(last: Queue<T>, accepted: seq<T>, delivered: seq<T>)

  function Step<T>(q: Queue<T>, op: Op<T>): StepResult<T> {
    match op
    case In(x) =>
      (match Enqueue(q, x)
       case InWouldBlock => Waits
       case Stored(q') => Moved(q', [x], [])
       case Dropped(q') => Moved(q', [], []))
    case Out =>
      (match Dequeue(q)
       case OutWouldBlock => Waits
       case Returned(e, q') => Moved(q', [], if e.Some? then [e.value] else []))
    case ClearOp => Moved(Clear(q), [], [])
    case BreakOp => Moved(BreakBlock(q), [], [])
  }

  function Execute<T>(q: Queue<T>, ops: seq<Op<T>>): RunResult<T>
    decreases |ops|
  {
    if ops == [] then Finished(q, [], [])
    else
      match Step(q, ops[0])
      case Waits => Stuck
      case Moved(q', a, d) =>
        match Execute(q', ops[1..])
        case Stuck => Stuck
        case Finished(f, a', d') => Finished(f, a + a', d + d')
  }

  /** `n` dequeue calls in a row. */
  function Outs<T>(n: nat): (ops: seq<Op<T>>)
    ensures |ops| == n && forall i :: 0 <= i < n ==> ops[i] == Out
  {
    if n == 0 then [] else [Out] + Outs(n - 1)
  }

  predicate NoClear<T>(ops: seq<Op<T>>) {
    forall i :: 0 <= i < |ops| ==> !ops[i].ClearOp?
  }

  /** The capacity invariant holds after every single step. */
  lemma StepKeepsCapacity<T>(q: Queue<T>, op: Op<T>)
    requires q.Valid()
    ensures Step(q, op).Moved? ==> Step(q, op).next.Valid()
  {
  }

  /** However long the run, the queue never holds more than `Capacity` elements. */
  lemma {:induction false} RunKeepsCapacity<T>(q: Queue<T>, ops: seq<Op<T>>)
    requires q.Valid()
    ensures Execute(q, ops).Finished? ==> Execute(q, ops).last.Valid()
    decreases |ops|
  {
    if ops != [] {
      StepKeepsCapacity(q, ops[0]);
      match Step(q, ops[0])
      case Waits =>
      case Moved(q', a, d) => RunKeepsCapacity(q', ops[1..]);
    }
  }

  /**
   * A step other than a clear keeps the order: the elements held before
   * it followed by what it accepted are what it delivered followed by the
   * elements held after it.
   */
  lemma StepIsFifo<T>(q: Queue<T>, op: Op<T>)
    requires !op.ClearOp?
    ensures Step(q, op).Moved? ==>
              q.items + Step(q, op).accepted == Step(q, op).delivered + Step(q, op).next.items
  {
    if op.Out? && Dequeue(q).Returned? && Dequeue(q).element.Some? {
      assert q.items == [q.items[0]] + q.items[1..];
    }
  }

  /** Glues the FIFO equations of two consecutive pieces of a run. */
  lemma Chain<T>(x: seq<T>, a: seq<T>, a': seq<T>, d: seq<T>, y: seq<T>, d': seq<T>, z: seq<T>)
    requires x + a == d + y
    requires y + a' == d' + z
    ensures x + (a + a') == (d + d') + z
  {
    calc {
      x + (a + a');
      (x + a) + a';
      (d + y) + a';
      d + (y + a');
      d + (d' + z);
      (d + d') + z;
    }
  }

  /**
   * Strict FIFO order: in a run without `queue_clear`, the elements held at
   * the start followed by every accepted element are exactly the delivered
   * elements, in the order delivered, followed by what is still queued.
   */
  lemma {:induction false} RunIsFifo<T>(q: Queue<T>, ops: seq<Op<T>>)
    requires NoClear(ops)
    ensures Execute(q, ops).Finished? ==>
              q.items + Execute(q, ops).accepted == Execute(q, ops).delivered + Execute(q, ops).last.items
    decreases |ops|
  {
    if ops != [] {
      assert NoClear(ops[1..]) by {
        forall i | 0 <= i < |ops[1..]| ensures !ops[1..][i].ClearOp? {
          assert ops[1..][i] == ops[i + 1];
        }
      }
      StepIsFifo(q, ops[0]);
      var st := Step(q, ops[0]);
      if st.Moved? {
        var q', a, d := st.next, st.accepted, st.delivered;
        RunIsFifo(q', ops[1..]);
        var rest := Execute(q', ops[1..]);
        if rest.Finished? {
          var f, a', d' := rest.last, rest.accepted, rest.delivered;
          assert Execute(q, ops) == Finished(f, a + a', d + d');
          Chain(q.items, a, a', d, q'.items, d', f.items);
        }
      }
    }
  }

  /**
   * Draining after `break_block`: a non-blocking queue holding N elements
   * hands out exactly those N elements in order to N dequeue calls, and
   * any further call gets the null sentinel and changes nothing.
   */
  lemma {:induction false} DrainDeliversInOrder<T>(q: Queue<T>, n: nat)
    requires !q.isBlock
    ensures Execute(q, Outs(n)) == Drained(q, n)
    decreases n
  {
    if n > 0 {
      if q.items == [] {
        DrainDeliversInOrder(q, n - 1);
        DrainEmptyStep(q, n);
      } else {
        DrainDeliversInOrder(Queue(q.items[1..], false), n - 1);
        DrainHeadStep(q, n);
      }
    }
  }

  /**
   * The expected end of `n` dequeue calls on a non-blocking queue: the
   * first `k` elements delivered and the rest still queued, where `k` is
   * `n` or the queue's length, whichever is smaller.
   */
  function Drained<T>(q: Queue<T>, n: nat): RunResult<T> {
    var k := if n < |q.items| then n else |q.items|;
    Finished(Queue(q.items[k..], false), [], q.items[..k])
  }

  /** On an empty non-blocking queue one more dequeue call changes nothing. */
  lemma DrainEmptyStep<T>(q: Queue<T>, n: nat)
    requires !q.isBlock && q.items == [] && n > 0
    requires Execute(q, Outs(n - 1)) == Drained(q, n - 1)
    ensures Execute(q, Outs(n)) == Drained(q, n)
  {
    var ops := Outs<T>(n);
    assert ops[0] == Out && ops[1..] == Outs(n - 1);
    RunStep(q, ops, q, [], []);
  }

  /** On a non-empty non-blocking queue the first dequeue call delivers the head. */
  lemma DrainHeadStep<T>(q: Queue<T>, n: nat)
    requires !q.isBlock && q.items != [] && n > 0
    requires Execute(Queue(q.items[1..], false), Outs(n - 1)) == Drained(Queue(q.items[1..], false), n - 1)
    ensures Execute(q, Outs(n)) == Drained(q, n)
  {
    var ops := Outs<T>(n);
    assert ops[0] == Out && ops[1..] == Outs(n - 1);
    var q' := Queue(q.items[1..], false);
    var k' := if n - 1 < |q'.items| then n - 1 else |q'.items|;
    assert Dequeue(q) == Returned(Some(q.items[0]), q');
    assert Step(q, ops[0]) == Moved(q', [], [q.items[0]]);
    var rest := Execute(q', ops[1..]);
    assert rest == Finished(Queue(q'.items[k'..], false), [], q'.items[..k']);
    RunStep(q, ops, q', [], [q.items[0]]);
    ShiftSlices(q.items, k');
    assert Drained(q, n) == Finished(Queue(q.items[k' + 1..], false), [], q.items[..k' + 1]);
  }

  /** Slicing the tail of a non-empty sequence is slicing the sequence one further on. */
  lemma ShiftSlices<T>(xs: seq<T>, k: nat)
    requires k < |xs|
    ensures xs[1..][k..] == xs[k + 1..]
    ensures [xs[0]] + xs[1..][..k] == xs[..k + 1]
  {
  }

  /** A run that starts with a step that moves continues from the state that step leaves. */
  lemma RunStep<T>(q: Queue<T>, ops: seq<Op<T>>, q': Queue<T>, a: seq<T>, d: seq<T>)
    requires ops != [] && Step(q, ops[0]) == Moved(q', a, d)
    requires Execute(q', ops[1..]).Finished?
    ensures var rest := Execute(q', ops[1..]);
            Execute(q, ops) == Finished(rest.last, a + rest.accepted, d + rest.delivered)
  {
  }
}
