# FFMPEG Android player: packet queue and time formatter, in Dafny

This project models two small sequential cores of an Android media player.
It proves properties of both.

1. **The bounded packet queue** of the native layer (`queue.cpp`, `queue.h`).
   The demux thread feeds it and the audio and video decode threads drain it.
   It is a FIFO of at most `QUEUE_MAX_SIZE = 50` packets with an `is_block` flag.
   In blocking mode, enqueue waits while the queue is full and dequeue waits while it is empty.
   `break_block` switches to a non-blocking "drain" mode.
   In that mode, an enqueue on a full queue silently drops its element.
   A dequeue on an empty queue returns `nullptr`.
   `queue_clear` empties the queue and re-arms blocking mode.
2. **`MainActivity.formatTime`**. It renders whole seconds as `MM:SS`, padding each field below ten with one `0`.

## Layout

- `wrappers.dfy`, module `Wrappers`: `Option`. `None` stands for the null packet pointer.
- `packet_queue.dfy`, module `PacketQueue`: the abstract state is the queued elements (a `seq<T>`) plus `isBlock`.
  Each C function is a pure transition.
  A call that would wait on a condition variable returns `InWouldBlock` or `OutWouldBlock` instead.
- `linked_queue.dfy`, module `LinkedQueue`: the queue as the C code stores it.
  That is a `size` counter, `head` and `tail` pointers, and the node chain.
  The operations take the same branches as the C code:
  - `queue_in` tests `tail == nullptr` and `size >= QUEUE_MAX_SIZE`;
  - `queue_out` tests `head == nullptr`;
  - the two queries test `size`.
  The contracts show that every operation keeps the representation invariant and refines its abstract counterpart.
- `queue_trace.dfy`, module `QueueTrace`: replays sequences of completed calls. It proves:
  - capacity is preserved over whole runs;
  - strict FIFO order;
  - the drain behaviour after `break_block`.
- `decimal.dfy`, module `Decimal`: Java's `int`-to-string conversion, as used by string concatenation, and a digit parser that inverts it.
- `time_format.dfy`, module `TimeFormat`: `formatTime`, with Java's truncating `/` and `%`.
  Its inverse is `ParseTime`. Over unbounded integers, `Canonical` describes exactly the set of outputs on non-negative times.

Elements are a type parameter `T`, standing in for `AVPacket*`.

## Model

| member | source | states |
|---|---|---|
| PacketQueue.Init | FFMPEGplayer/app/src/main/cpp/queue.cpp:9-13 | a fresh queue is empty, within capacity and in blocking mode, so a first dequeue would wait |
| PacketQueue.Enqueue | FFMPEGplayer/app/src/main/cpp/queue.cpp:64-86 | waits exactly when full in blocking mode; on a queue within capacity, drops exactly when full in non-blocking mode, leaving the queue as it was; otherwise grows the queue by one with the old elements unchanged as a prefix and the new one last; never exceeds the capacity of 50 |
| PacketQueue.Dequeue | FFMPEGplayer/app/src/main/cpp/queue.cpp:92-112 | waits exactly when empty in blocking mode; returns the null sentinel exactly when empty in non-blocking mode, changing nothing; otherwise returns the oldest element, and that element followed by the remaining queue is the old queue |
| PacketQueue.Clear | FFMPEGplayer/app/src/main/cpp/queue.cpp:117-131 | whatever the prior contents or mode, the queue is empty and blocking again |
| PacketQueue.BreakBlock | FFMPEGplayer/app/src/main/cpp/queue.cpp:136-140 | only the mode changes, to non-blocking; the contents are untouched |
| PacketQueue.Destroy | FFMPEGplayer/app/src/main/cpp/queue.cpp:32-35 | the fields left behind describe an empty queue (size 0, head and tail null) with `is_block` false |
| PacketQueue.EnqueueThenDequeue | FFMPEGplayer/app/src/main/cpp/queue.cpp:73-111 | on an empty queue, an element put in is the element taken out, and the queue is empty again |
| PacketQueue.DequeueReleasesBlockedEnqueue | FFMPEGplayer/app/src/main/cpp/queue.cpp:101-109 | an enqueue blocked on a full queue can proceed after one dequeue, which hands out the head; the new element then goes at the tail |
| PacketQueue.ClearRearms | FFMPEGplayer/app/src/main/cpp/queue.cpp:117-131 | after a clear a consumer waits again, and an enqueue is stored again, even when the queue was full and unblocked before |
| PacketQueue.BreakBlockIdempotent | FFMPEGplayer/app/src/main/cpp/queue.cpp:136-140 | applying `break_block` twice equals applying it once, and the capacity invariant survives it |
| LinkedQueue.LinkedInit | FFMPEGplayer/app/src/main/cpp/queue.cpp:9-13 | size 0 with null head and tail satisfies the representation invariant and stands for the fresh abstract queue |
| LinkedQueue.QueriesRefine | FFMPEGplayer/app/src/main/cpp/queue.cpp:48-58 | under the invariant, the size-based queries agree with the contents, and size 0 holds iff head and tail are both null |
| LinkedQueue.LinkedEnqueue | FFMPEGplayer/app/src/main/cpp/queue.cpp:69-83 | the pointer-level insertion keeps size equal to the chain length, keeps head null iff tail null iff size 0, and does to the contents exactly what the abstract enqueue does |
| LinkedQueue.LinkedDequeue | FFMPEGplayer/app/src/main/cpp/queue.cpp:97-108 | testing `head` rather than `size` gives the same outcome as the abstract dequeue; tail is nulled when the last node goes, and the invariant is kept |
| LinkedQueue.LinkedClear | FFMPEGplayer/app/src/main/cpp/queue.cpp:117-128 | freeing the chain and nulling both ends restores the invariant and refines the abstract clear |
| LinkedQueue.LinkedBreakBlock | FFMPEGplayer/app/src/main/cpp/queue.cpp:136-137 | only the flag changes: the invariant is kept and the abstract `break_block` is refined |
| LinkedQueue.LinkedDestroy | FFMPEGplayer/app/src/main/cpp/queue.cpp:25-35 | the torn-down representation satisfies the invariant and stands for an empty non-blocking queue |
| QueueTrace.RunKeepsCapacity | FFMPEGplayer/app/src/main/cpp/queue.cpp:66-83 | over any sequence of completed calls the queue never holds more than 50 elements |
| QueueTrace.StepIsFifo | FFMPEGplayer/app/src/main/cpp/queue.cpp:73-111 | for each call other than clear, the old contents followed by what the call accepted equal what it delivered followed by the new contents |
| QueueTrace.RunIsFifo | FFMPEGplayer/app/src/main/cpp/queue.cpp:73-111 | strict FIFO order: over any clear-free sequence of completed calls, the initial contents followed by all accepted elements equal all delivered elements, in order, followed by the final contents |
| QueueTrace.DrainDeliversInOrder | FFMPEGplayer/app/src/main/cpp/queue.cpp:92-111 | once unblocked, a queue of N elements yields exactly those N elements in order, then null on every further call, never waiting |
| Decimal.NatToString | FFMPEGplayer/app/src/main/java/com/charles/ffmpegplayer/MainActivity.java:117 | the decimal rendering of a natural number is non-empty, all digits and free of leading zeros; it is one character exactly for values below ten |
| Decimal.JavaIntToString | FFMPEGplayer/app/src/main/java/com/charles/ffmpegplayer/MainActivity.java:117 | a non-negative int is rendered as a digit string without a leading zero that parses back to it; a negative int is rendered as '-' followed by such a digit string, which parses to its magnitude |
| Decimal.MinusSignIffNegative | FFMPEGplayer/app/src/main/java/com/charles/ffmpegplayer/MainActivity.java:117 | the rendering contains '-' iff the value is negative |
| Decimal.ParseRendered | FFMPEGplayer/app/src/main/java/com/charles/ffmpegplayer/MainActivity.java:117 | parsing the rendering of n gives n |
| Decimal.RenderParsed | FFMPEGplayer/app/src/main/java/com/charles/ffmpegplayer/MainActivity.java:117 | every digit string without a leading zero is the rendering of its own value |
| Decimal.ParseLeadingZero | FFMPEGplayer/app/src/main/java/com/charles/ffmpegplayer/MainActivity.java:117 | the "0" that padding prepends does not change the parsed value |
| TimeFormat.JavaDiv | FFMPEGplayer/app/src/main/java/com/charles/ffmpegplayer/MainActivity.java:115 | the quotient truncates toward zero: the remainder left is in [0, 60) for a non-negative dividend and in (-60, 0] for a negative one |
| TimeFormat.JavaRem | FFMPEGplayer/app/src/main/java/com/charles/ffmpegplayer/MainActivity.java:116 | the remainder completes the truncating quotient (time = 60 * minute + second) and takes the dividend's sign |
| TimeFormat.Pad | FFMPEGplayer/app/src/main/java/com/charles/ffmpegplayer/MainActivity.java:117 | a non-negative field is rendered as at least two digits, and it starts with '0' only when exactly two long |
| TimeFormat.PadParses | FFMPEGplayer/app/src/main/java/com/charles/ffmpegplayer/MainActivity.java:117 | a padded non-negative field parses back to the field |
| TimeFormat.PadTwoDigits | FFMPEGplayer/app/src/main/java/com/charles/ffmpegplayer/MainActivity.java:116-117 | a field below 100, and so every seconds field, is rendered as exactly its tens digit and units digit, with a leading '0' below ten |
| TimeFormat.FormatTime | FFMPEGplayer/app/src/main/java/com/charles/ffmpegplayer/MainActivity.java:114-118 | for time >= 0 the result is at least five characters long and its third character from the end is the ':' separator |
| TimeFormat.FormatShape | FFMPEGplayer/app/src/main/java/com/charles/ffmpegplayer/MainActivity.java:114-118 | for time >= 0 the result has length >= 5 and exactly one ':', third from the end, with decimal digits everywhere else; its last two characters are the two digits of time % 60 |
| TimeFormat.Fields | FFMPEGplayer/app/src/main/java/com/charles/ffmpegplayer/MainActivity.java:115-117 | splitting the output at its colon gives the padded minute time / 60 and the padded second time % 60 |
| TimeFormat.ParseFormat | FFMPEGplayer/app/src/main/java/com/charles/ffmpegplayer/MainActivity.java:114-118 | round trip: for time >= 0, reading minutes m and seconds s back gives m * 60 + s == time |
| TimeFormat.FormatInjective | FFMPEGplayer/app/src/main/java/com/charles/ffmpegplayer/MainActivity.java:114-118 | distinct non-negative times give distinct strings |
| TimeFormat.FormatIsCanonical | FFMPEGplayer/app/src/main/java/com/charles/ffmpegplayer/MainActivity.java:117 | every output on a non-negative time is canonical: the minutes field starts with '0' only when it is two digits, and the first seconds digit is at most 5 |
| TimeFormat.FormatParse | FFMPEGplayer/app/src/main/java/com/charles/ffmpegplayer/MainActivity.java:114-118 | the converse round trip: every canonical string parses, and formatting the parsed time gives the string back; over unbounded integers the outputs on non-negative times are exactly the canonical strings |
| TimeFormat.MinusIffNegative | FFMPEGplayer/app/src/main/java/com/charles/ffmpegplayer/MainActivity.java:115-117 | the output contains a '-' iff the input is negative; Java's truncating `/` and `%` put the sign into a field |
| TimeFormat.Examples | FFMPEGplayer/app/src/main/java/com/charles/ffmpegplayer/MainActivity.java:114-118 | 65 gives "01:05", 3725 gives "62:05" (minutes are not wrapped into hours), and -5 gives "00:0-5" |

## Left out

- Threads, the mutex and the condition variables of `queue.cpp` are not modelled.
  A wait is a `WouldBlock` outcome.
  A wake-up is a later call taken in the state it then finds.
  This is sound for the locked operations: each takes effect atomically under the mutex once its wait loop has exited.
- The unlocked write of `is_block` in `break_block` is not modelled as a race.
  The model treats it as an atomic step.
- The queries `queue_is_empty` and `queue_is_full` read `size` without taking the lock.
  Any point-in-time guarantee for concurrent callers is not modelled.
- `malloc` and `free` of nodes, the mutex and the condition variables in `queue_init`, `queue_destroy` and `queue_clear` are left out.
  Nodes are a sequence, not heap cells.
  Using a queue after `queue_destroy` is undefined in C, because its mutex is freed.
  `Destroy` only records the fields that the C code resets.
- A null packet pushed into the queue would come back out indistinguishable from the empty-queue sentinel.
  The element type `T` has no null, so this case is not modelled.
- Java's 32-bit `int` is modelled as an unbounded integer in `formatTime`.
  Dividing by 60 and taking the remainder by 60 cannot overflow, so no result changes.
- TimeFormat.FormatParse: its description of the outputs is over unbounded integers. A canonical string such as "35791395:00" parses to 2147483700, above Java's largest `int`, so no Java call produces it. The lemma does not bound the parsed time by 2147483647.
- The rest of `MainActivity.java` (UI wiring, executor, handler) is Android UI plumbing and is left out.
- `player.cpp` is JNI, FFmpeg and `ANativeWindow` call sequencing and is left out.
- `FFMpegPlayer.java` wraps `AudioTrack` and declares native methods. It is left out.
- The native seek, A/V synchronisation and the producer and consumer loops behind `play` and `seekTo` are not part of this model.
