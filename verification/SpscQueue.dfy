/**
 The single-producer single-consumer ring buffer, as the atomic steps of its two threads and as a
 class whose methods are uninterrupted sequences of those steps.

 A load of the other side's index may return any value that index has had since the last one this
 side saw, which covers the stale values an acquire load may return.
 */
module SpscQueue {
  import opened Arith
  import opened Wrappers

  /** A slot is raw memory or holds a constructed element. */
  datatype Slot<T> = Raw | Live(value: T)

  /** What the producer has still to do inside `emplace` or `try_emplace`. */
  datatype Producer<T> =
    | Idle
    | Checking(arg: T, next: nat, spin: bool)
    | Writing(arg: T, next: nat)
    | Publishing(arg: T, next: nat)

  /** What the consumer has still to do inside `front`, `pop` or `blocking_pop`. */
  datatype Consumer<T> =
    | Resting
    | Looking(at: nat, spin: bool)
    | Holding(at: nat)
    | Taken(at: nat, out: Slot<T>)
    | Released(at: nat, out: Slot<T>)

  /**
   The shared memory, the two program counters, and the history: the elements published so far, what
   was found in the slots handed back so far, and the last index value each side has seen of the other.
   */
  datatype Queue<T> = Queue(
    capacity: nat,
    slots: seq<Slot<T>>,
    head: nat,
    tail: nat,
    producer: Producer<T>,
    consumer: Consumer<T>,
    pushed: seq<T>,
    popped: seq<Slot<T>>,
    seenPops: nat,
    seenPushes: nat)

  datatype Action<T> =
    | StartEmplace(arg: T, spin: bool)
    | LoadTail(pops: nat)
    | Construct
    | PublishHead
    | StartFront(spin: bool)
    | LoadHead(pushes: nat)
    | Forget
    | MoveOut
    | Destroy
    | PublishTail

  function Init<T>(capacity: nat): Queue<T> {
    Queue(capacity, seq(capacity, _ => Raw), 0, 0, Idle, Resting, [], [], 0, 0)
  }

  function Next(i: nat, capacity: nat): nat {
    if i + 1 == capacity then 0 else i + 1
  }

  /** An action is possible at the matching program point; loads may be stale, indices must be in range. */
  predicate Enabled<T>(q: Queue<T>, a: Action<T>) {
    && q.capacity > 0
    && match a
       case StartEmplace(_, _) => q.producer.Idle?
       case LoadTail(k) => q.producer.Checking? && q.seenPops <= k <= |q.popped|
       case Construct => q.producer.Writing? && q.head < |q.slots|
       case PublishHead => q.producer.Publishing?
       case StartFront(_) => q.consumer.Resting?
       case LoadHead(k) => q.consumer.Looking? && q.seenPushes <= k <= |q.pushed|
       case Forget => q.consumer.Holding?
       case MoveOut => q.consumer.Holding? && q.consumer.at < |q.slots|
       case Destroy => (q.consumer.Holding? || q.consumer.Taken?) && q.consumer.at < |q.slots|
       case PublishTail => q.consumer.Released?
  }

  function Step<T>(q: Queue<T>, a: Action<T>): Queue<T>
    requires Enabled(q, a)
  {
    match a
    case StartEmplace(v, spin) =>
      q.(producer := Checking(v, Next(q.head, q.capacity), spin))
    case LoadTail(k) =>
      var p := q.producer;
      q.(seenPops := k,
         producer := if p.next != k % q.capacity then Writing(p.arg, p.next)
                     else if p.spin then p else Idle)
    case Construct =>
      q.(slots := q.slots[q.head := Live(q.producer.arg)],
         producer := Publishing(q.producer.arg, q.producer.next))
    case PublishHead =>
      q.(head := q.producer.next, producer := Idle, pushed := q.pushed + [q.producer.arg])
    case StartFront(spin) =>
      q.(consumer := Looking(q.tail, spin))
    case LoadHead(k) =>
      var c := q.consumer;
      q.(seenPushes := k,
         consumer := if k % q.capacity != c.at then Holding(c.at)
                     else if c.spin then c else Resting)
    case Forget =>
      q.(consumer := Resting)
    case MoveOut =>
      q.(consumer := Taken(q.consumer.at, q.slots[q.consumer.at]))
    case Destroy =>
      var out := if q.consumer.Taken? then q.consumer.out else q.slots[q.consumer.at];
      q.(slots := q.slots[q.consumer.at := Raw], consumer := Released(q.consumer.at, out))
    case PublishTail =>
      q.(tail := Next(q.consumer.at, q.capacity), consumer := Resting, popped := q.popped + [q.consumer.out])
  }

  /** The abstract FIFO: published and not yet handed back. */
  function Contents<T>(q: Queue<T>): seq<T>
    requires |q.popped| <= |q.pushed|
  {
    q.pushed[|q.popped|..]
  }

  /** What the slot of the `i`-th push must hold while it is within one lap of the consumer. */
  function Cell<T>(q: Queue<T>, i: nat): Slot<T> {
    if i < |q.pushed| then
      if i == |q.popped| && q.consumer.Released? then Raw else Live(q.pushed[i])
    else if i == |q.pushed| && q.producer.Publishing? then Live(q.producer.arg)
    else Raw
  }

  ghost predicate ProducerInv<T>(q: Queue<T>)
    requires q.capacity >= 2
  {
    && q.seenPops <= |q.popped| && |q.pushed| < q.seenPops + q.capacity
    && (!q.producer.Idle? ==> q.producer.next == Next(q.head, q.capacity))
    && (q.producer.Writing? || q.producer.Publishing? ==> |q.pushed| + 1 < q.seenPops + q.capacity)
  }

  ghost predicate ConsumerInv<T>(q: Queue<T>)
    requires q.capacity >= 2
  {
    && |q.popped| <= q.seenPushes <= |q.pushed|
    && (!q.consumer.Resting? ==> q.consumer.at == q.tail)
    && (q.consumer.Holding? || q.consumer.Taken? || q.consumer.Released? ==> |q.popped| < q.seenPushes)
    && (q.consumer.Taken? || q.consumer.Released? ==> q.consumer.out == Live(q.pushed[|q.popped|]))
  }

  ghost predicate SlotsInv<T>(q: Queue<T>)
    requires q.capacity >= 2 && |q.slots| == q.capacity
  {
    forall i: nat | |q.popped| <= i < |q.popped| + q.capacity :: q.slots[i % q.capacity] == Cell(q, i)
  }

  ghost predicate Inv<T>(q: Queue<T>) {
    && q.capacity >= 2 && |q.slots| == q.capacity
    && |q.popped| <= |q.pushed| < |q.popped| + q.capacity
    && q.head == |q.pushed| % q.capacity
    && q.tail == |q.popped| % q.capacity
    && (forall i | 0 <= i < |q.popped| :: q.popped[i] == Live(q.pushed[i]))
    && ProducerInv(q) && ConsumerInv(q) && SlotsInv(q)
  }

  lemma InvInit<T>(capacity: nat)
    requires capacity >= 2
    ensures Inv(Init<T>(capacity))
  {
  }

  /** A load of `tail_` finds room exactly when the pops it shows leave the ring short of full. */
  lemma RoomTest<T>(q: Queue<T>, k: nat)
    requires Inv(q) && q.seenPops <= k <= |q.popped|
    ensures Next(q.head, q.capacity) != k % q.capacity <==> |q.pushed| - k < q.capacity - 1
  {
    ModSucc(|q.pushed|, q.capacity);
    var n := |q.pushed| + 1;
    if n == k + q.capacity {
      ModAddLap(k, q.capacity);
    } else {
      ModDistinct(k, n, q.capacity);
    }
  }

  /** A load of `head_` finds an element exactly when the pushes it shows exceed the pops. */
  lemma DataTest<T>(q: Queue<T>, k: nat)
    requires Inv(q) && q.seenPushes <= k <= |q.pushed|
    ensures k % q.capacity != q.tail <==> |q.popped| < k
  {
    if |q.popped| < k {
      ModDistinct(|q.popped|, k, q.capacity);
    }
  }

  /** No step constructs over a live element, reads or destroys raw memory, or indexes out of range. */
  ghost predicate Safe<T>(q: Queue<T>, a: Action<T>) {
    match a
    case Construct => q.producer.Writing? ==> q.head < |q.slots| && q.slots[q.head].Raw?
    case MoveOut =>
      q.consumer.Holding? ==>
        q.consumer.at < |q.slots| && |q.popped| < |q.pushed| && q.slots[q.consumer.at] == Live(q.pushed[|q.popped|])
    case Destroy =>
      q.consumer.Holding? || q.consumer.Taken? ==> q.consumer.at < |q.slots| && q.slots[q.consumer.at].Live?
    case _ => true
  }

  lemma InvIsSafe<T>(q: Queue<T>, a: Action<T>)
    requires Inv(q)
    ensures Safe(q, a)
  {
    assert q.slots[|q.popped| % q.capacity] == Cell(q, |q.popped|);
    assert q.slots[|q.pushed| % q.capacity] == Cell(q, |q.pushed|);
  }

  lemma SlotsAfterConstruct<T>(q: Queue<T>)
    requires Inv(q) && Enabled(q, Construct)
    ensures SlotsInv(Step(q, Construct))
  {
    var q' := Step(q, Construct);
    forall i: nat | |q.popped| <= i < |q.popped| + q.capacity ensures q'.slots[i % q.capacity] == Cell(q', i) {
      assert q.slots[i % q.capacity] == Cell(q, i);
      if i < |q.pushed| {
        ModDistinct(i, |q.pushed|, q.capacity);
      } else if i > |q.pushed| {
        ModDistinct(|q.pushed|, i, q.capacity);
      }
    }
  }

  lemma SlotsAfterDestroy<T>(q: Queue<T>)
    requires Inv(q) && Enabled(q, Destroy)
    ensures SlotsInv(Step(q, Destroy))
  {
    var q' := Step(q, Destroy);
    forall i: nat | |q.popped| <= i < |q.popped| + q.capacity ensures q'.slots[i % q.capacity] == Cell(q', i) {
      assert q.slots[i % q.capacity] == Cell(q, i);
      if i > |q.popped| {
        ModDistinct(|q.popped|, i, q.capacity);
      }
    }
  }

  lemma SlotsAfterPublishHead<T>(q: Queue<T>)
    requires Inv(q) && Enabled(q, PublishHead)
    ensures SlotsInv(Step(q, PublishHead))
  {
    var q' := Step(q, PublishHead);
    forall i: nat | |q.popped| <= i < |q.popped| + q.capacity ensures q'.slots[i % q.capacity] == Cell(q', i) {
      assert q.slots[i % q.capacity] == Cell(q, i);
    }
  }

  lemma SlotsAfterPublishTail<T>(q: Queue<T>)
    requires Inv(q) && Enabled(q, PublishTail)
    ensures SlotsInv(Step(q, PublishTail))
  {
    var q' := Step(q, PublishTail);
    forall i: nat | |q'.popped| <= i < |q'.popped| + q.capacity ensures q'.slots[i % q.capacity] == Cell(q', i) {
      if i < |q.popped| + q.capacity {
        assert q.slots[i % q.capacity] == Cell(q, i);
      } else {
        ModAddLap(|q.popped|, q.capacity);
        assert q.slots[|q.popped| % q.capacity] == Cell(q, |q.popped|);
      }
    }
  }

  lemma InvStep<T>(q: Queue<T>, a: Action<T>)
    requires Inv(q) && Enabled(q, a)
    ensures Inv(Step(q, a))
  {
    var q' := Step(q, a);
    match a
    case LoadTail(k) =>
      RoomTest(q, k);
      SlotsUnchanged(q, q');
    case Construct =>
      SlotsAfterConstruct(q);
    case PublishHead =>
      SlotsAfterPublishHead(q);
      ModSucc(|q.pushed|, q.capacity);
    case LoadHead(k) =>
      DataTest(q, k);
      SlotsUnchanged(q, q');
    case MoveOut =>
      InvIsSafe(q, a);
      SlotsUnchanged(q, q');
    case Destroy =>
      InvIsSafe(q, a);
      assert q.slots[|q.popped| % q.capacity] == Cell(q, |q.popped|);
      SlotsAfterDestroy(q);
    case PublishTail =>
      SlotsAfterPublishTail(q);
      ModSucc(|q.popped|, q.capacity);
    case _ =>
      SlotsUnchanged(q, q');
  }

  lemma SlotsUnchanged<T>(q: Queue<T>, q': Queue<T>)
    requires Inv(q) && q'.capacity == q.capacity && q'.slots == q.slots && q'.pushed == q.pushed && q'.popped == q.popped
    requires q.producer.Publishing? || q'.producer.Publishing? ==> q.producer == q'.producer
    requires q.consumer.Released? == q'.consumer.Released?
    ensures SlotsInv(q')
  {
    forall i: nat | |q'.popped| <= i < |q'.popped| + q'.capacity ensures q'.slots[i % q'.capacity] == Cell(q', i) {
      assert q.slots[i % q.capacity] == Cell(q, i);
    }
  }

  /**
   Every step either leaves the abstract FIFO alone, appends the producer's argument to a FIFO that is
   not full, or removes the oldest element and hands exactly that element to the consumer.
   */
  lemma StepRefinesFifo<T>(q: Queue<T>, a: Action<T>)
    requires Inv(q) && Enabled(q, a)
    ensures Inv(Step(q, a))
    ensures match a
            case PublishHead =>
              && |Contents(q)| < q.capacity - 1
              && Contents(Step(q, a)) == Contents(q) + [q.producer.arg]
              && Step(q, a).popped == q.popped
            case PublishTail =>
              && Contents(q) != []
              && Contents(Step(q, a)) == Contents(q)[1..]
              && Step(q, a).popped == q.popped + [Live(Contents(q)[0])]
            case _ =>
              Contents(Step(q, a)) == Contents(q) && Step(q, a).popped == q.popped
  {
    InvStep(q, a);
  }

  /** A run from the constructor, with any interleaving of the two threads' steps. */
  ghost predicate IsRun<T>(capacity: nat, trace: seq<Queue<T>>, acts: seq<Action<T>>) {
    && |trace| == |acts| + 1
    && trace[0] == Init(capacity)
    && forall i | 0 <= i < |acts| :: Enabled(trace[i], acts[i]) && trace[i + 1] == Step(trace[i], acts[i])
  }

  lemma {:induction false} RunInv<T>(capacity: nat, trace: seq<Queue<T>>, acts: seq<Action<T>>, i: nat)
    requires capacity >= 2 && IsRun(capacity, trace, acts) && i < |trace|
    ensures Inv(trace[i]) && trace[i].capacity == capacity
  {
    if i == 0 {
      InvInit<T>(capacity);
    } else {
      RunInv(capacity, trace, acts, i - 1);
      InvStep(trace[i - 1], acts[i - 1]);
    }
  }

  /**
   In every interleaving: what was handed back is a prefix of what was pushed, never more than
   capacity - 1 elements are held, and the next step of either thread touches only slots in the state it expects.
   */
  lemma EveryRunIsFifo<T>(capacity: nat, trace: seq<Queue<T>>, acts: seq<Action<T>>, i: nat)
    requires capacity >= 2 && IsRun(capacity, trace, acts) && i < |trace|
    ensures |trace[i].popped| <= |trace[i].pushed| <= |trace[i].popped| + capacity - 1
    ensures forall k | 0 <= k < |trace[i].popped| :: trace[i].popped[k] == Live(trace[i].pushed[k])
    ensures forall a :: Safe(trace[i], a)
  {
    RunInv(capacity, trace, acts, i);
    forall a: Action<T> ensures Safe(trace[i], a) {
      InvIsSafe(trace[i], a);
    }
  }

  /**
   `try_emplace` that sees every pop fails exactly on a full queue, and `front` that sees every push
   returns null exactly on an empty one; with an older view the first may only fail and the second may only return null more often.
   */
  lemma FreshLoadsDecideExactly<T>(q: Queue<T>)
    requires Inv(q)
    ensures q.producer.Checking? ==>
              (Step(q, LoadTail(|q.popped|)).producer.Writing? <==> |Contents(q)| < q.capacity - 1)
    ensures q.consumer.Looking? ==>
              (Step(q, LoadHead(|q.pushed|)).consumer.Holding? <==> Contents(q) != [])
    ensures forall k | q.producer.Checking? && Enabled(q, LoadTail(k)) && Step(q, LoadTail(k)).producer.Writing? ::
              |Contents(q)| < q.capacity - 1
    ensures forall k | q.consumer.Looking? && Enabled(q, LoadHead(k)) && Step(q, LoadHead(k)).consumer.Holding? ::
              Contents(q) != []
  {
    RoomTest(q, |q.popped|);
    DataTest(q, |q.pushed|);
    forall k | q.producer.Checking? && Enabled(q, LoadTail(k)) && Step(q, LoadTail(k)).producer.Writing?
      ensures |Contents(q)| < q.capacity - 1
    {
      RoomTest(q, k);
    }
    forall k | q.consumer.Looking? && Enabled(q, LoadHead(k)) && Step(q, LoadHead(k)).consumer.Holding?
      ensures Contents(q) != []
    {
      DataTest(q, k);
    }
  }

  /** The arguments of the calls that put something in, in order. */
  function Offered<T>(acts: seq<Action<T>>): seq<T> {
    if acts == [] then []
    else
      var last := acts[|acts| - 1];
      Offered(acts[..|acts| - 1]) + (if last.StartEmplace? then [last.arg] else [])
  }

  function Fetches<T>(acts: seq<Action<T>>): nat {
    if acts == [] then 0 else Fetches(acts[..|acts| - 1]) + (if acts[|acts| - 1].StartFront? then 1 else 0)
  }

  /** Only `emplace`, `push` and `blocking_pop`: whoever finds no room or nothing to take tries again. */
  ghost predicate OnlySpins<T>(acts: seq<Action<T>>) {
    forall i | 0 <= i < |acts| :: (acts[i].StartEmplace? || acts[i].StartFront? ==> acts[i].spin) && !acts[i].Forget?
  }

  /**
   With the calls that spin nothing is lost and nothing is made up: the arguments of all calls so far are
   the elements published and the one still in hand, and every finished `blocking_pop` has handed back an element.
   */
  lemma {:induction false} SpinningLosesNothing<T>(capacity: nat, trace: seq<Queue<T>>, acts: seq<Action<T>>, i: nat)
    requires capacity >= 2 && IsRun(capacity, trace, acts) && i < |trace| && OnlySpins(acts)
    ensures var q := trace[i];
            && Offered(acts[..i]) == q.pushed + (if q.producer.Idle? then [] else [q.producer.arg])
            && Fetches(acts[..i]) == |q.popped| + (if q.consumer.Resting? then 0 else 1)
            && (q.producer.Checking? ==> q.producer.spin) && (q.consumer.Looking? ==> q.consumer.spin)
  {
    if i > 0 {
      SpinningLosesNothing(capacity, trace, acts, i - 1);
      assert acts[..i][..i - 1] == acts[..i - 1];
    }
  }

  const TWO_63 := 0x8000_0000_0000_0000
  const TWO_64 := 0x1_0000_0000_0000_0000

  /** `size` on the two loaded indices: an unsigned 64-bit difference read as signed, then moved up one lap if negative. */
  function SizeOf(capacity: nat, head: nat, tail: nat): int {
    var raw := (head - tail) % TWO_64;
    var diff := if raw >= TWO_63 then raw - TWO_64 else raw;
    if diff < 0 then diff + capacity else diff
  }

  /** On the indices of `a` pushes and `b` pops no more than one lap apart, `size` is their difference up to laps. */
  lemma SizeOfCounts(capacity: nat, a: nat, b: nat)
    requires 0 < capacity < TWO_63
    requires b <= a < b + capacity
    ensures SizeOf(capacity, a % capacity, b % capacity) == a - b
  {
    LapDifference(a, b, capacity);
    var x := a % capacity - b % capacity;
    if x < 0 {
      WrapNegative(x);
    }
  }

  lemma LapDifference(a: nat, b: nat, c: nat)
    requires b <= a < b + c
    ensures a % c - b % c == if b % c + (a - b) < c then a - b else a - b - c
  {
    var q, r := b / c, b % c;
    assert b == q * c + r;
    if r + (a - b) < c {
      ModOf(q, r + (a - b), c);
    } else {
      ModOf(q + 1, r + (a - b) - c, c);
      assert (q + 1) * c == q * c + c;
    }
  }

  lemma WrapNegative(x: int)
    requires -TWO_63 < x < 0
    ensures x % TWO_64 == x + TWO_64
  {
  }

  /**
   `size` called by an endpoint, at its load of the other side's index: the producer learns its own
   pushes minus the pops it saw, the consumer the pushes it saw minus its own pops, which is the
   abstract length when the load is not stale.
   */
  lemma EndpointSize<T>(q: Queue<T>, pops: nat, pushes: nat)
    requires Inv(q) && q.capacity < TWO_63
    requires q.seenPops <= pops <= |q.popped| && q.seenPushes <= pushes <= |q.pushed|
    ensures SizeOf(q.capacity, q.head, pops % q.capacity) == |q.pushed| - pops >= |Contents(q)|
    ensures SizeOf(q.capacity, pushes % q.capacity, q.tail) == pushes - |q.popped| <= |Contents(q)|
    ensures SizeOf(q.capacity, q.head, q.tail) == |Contents(q)|
  {
    SizeOfCounts(q.capacity, |q.pushed|, pops);
    SizeOfCounts(q.capacity, pushes, |q.popped|);
    SizeOfCounts(q.capacity, |q.pushed|, |q.popped|);
  }

  /** Whatever two counts the loaded indices stand for, the result is less than a lap and right up to laps. */
  lemma SizeOfRange(capacity: nat, a: nat, b: nat)
    requires 0 < capacity < TWO_63
    ensures 0 <= SizeOf(capacity, a % capacity, b % capacity) < capacity
    ensures SizeOf(capacity, a % capacity, b % capacity) % capacity == (a - b) % capacity
  {
    var x := a % capacity - b % capacity;
    SizeOfPair(capacity, a % capacity, b % capacity);
    var d := if x < 0 then x + capacity else x;
    var laps := a / capacity - b / capacity - (if x < 0 then 1 else 0);
    ModLaps(d, laps, capacity);
    LapsApart(a, b, capacity);
  }

  lemma SizeOfPair(capacity: nat, head: nat, tail: nat)
    requires 0 < capacity < TWO_63 && head < capacity && tail < capacity
    ensures SizeOf(capacity, head, tail) == if head < tail then head - tail + capacity else head - tail
  {
    if head < tail {
      WrapNegative(head - tail);
    }
  }

  lemma LapsApart(a: nat, b: nat, c: nat)
    requires c > 0
    ensures var x := a % c - b % c;
            a - b == (if x < 0 then x + c else x) + (a / c - b / c - (if x < 0 then 1 else 0)) * c
  {
    assert a == (a / c) * c + a % c && b == (b / c) * c + b % c;
  }

  lemma ModLaps(d: nat, laps: int, c: nat)
    requires d < c
    ensures (d + laps * c) % c == d % c == d
  {
    ModOf(0, d, c);
    if laps >= 0 {
      ModOf(laps, d, c);
    } else {
      NegativeLaps(d, -laps, c);
    }
  }

  lemma {:induction false} NegativeLaps(d: nat, laps: nat, c: nat)
    requires d < c
    ensures (d - laps * c) % c == d
  {
    var x := d - laps * c;
    var q, r := x / c, x % c;
    assert x == q * c + r;
    assert d - r == (q + laps) * c;
    if q + laps > 0 {
      MulLe(1, q + laps, c);
    } else if q + laps < 0 {
      MulLe(1, -(q + laps), c);
    }
  }

  /**
   `size` on the indices of any `a` pushes and `b` pops: it is their difference exactly if the pops do not
   run ahead of the pushes and the pushes are less than a lap ahead.
   */
  lemma SizeIsDifference(capacity: nat, a: nat, b: nat)
    requires 0 < capacity < TWO_63
    ensures SizeOf(capacity, a % capacity, b % capacity) == a - b <==> b <= a < b + capacity
  {
    SizeOfRange(capacity, a, b);
    if b <= a < b + capacity {
      SizeOfCounts(capacity, a, b);
    }
  }

  /**
   A third thread loads the two indices at different times of a run, in either order and any time apart.
   It gets the difference of the pushes at the one and the pops at the other load up to laps, and
   exactly so under the condition of `SizeIsDifference`, which two loads in the same state fulfil.
   */
  lemma BystanderSize<T>(capacity: nat, trace: seq<Queue<T>>, acts: seq<Action<T>>, i: nat, j: nat)
    requires 2 <= capacity < TWO_63 && IsRun(capacity, trace, acts) && i < |trace| && j < |trace|
    ensures var a, b := |trace[i].pushed|, |trace[j].popped|;
            var size := SizeOf(capacity, trace[i].head, trace[j].tail);
            && 0 <= size < capacity && size % capacity == (a - b) % capacity
            && (size == a - b <==> b <= a < b + capacity)
            && (i == j ==> b <= a < b + capacity && a - b == |Contents(trace[i])|)
  {
    RunInv(capacity, trace, acts, i);
    RunInv(capacity, trace, acts, j);
    SizeIsDifference(capacity, |trace[i].pushed|, |trace[j].popped|);
    SizeOfRange(capacity, |trace[i].pushed|, |trace[j].popped|);
  }

  /** An idle and empty queue through which `n` elements have gone. */
  ghost predicate Drained<T>(q: Queue<T>, n: nat) {
    Inv(q) && q.producer.Idle? && q.consumer.Resting? && |q.pushed| == |q.popped| == n
  }

  lemma RunGrows<T>(capacity: nat, trace: seq<Queue<T>>, acts: seq<Action<T>>, a: Action<T>)
    returns (trace': seq<Queue<T>>, acts': seq<Action<T>>)
    requires IsRun(capacity, trace, acts) && Enabled(trace[|acts|], a)
    ensures IsRun(capacity, trace', acts') && trace'[|acts'|] == Step(trace[|acts|], a) && trace'[0] == trace[0]
  {
    trace', acts' := trace + [Step(trace[|acts|], a)], acts + [a];
    forall i | 0 <= i < |acts'| ensures Enabled(trace'[i], acts'[i]) && trace'[i + 1] == Step(trace'[i], acts'[i]) {
      if i < |acts| {
        assert trace'[i] == trace[i] && trace'[i + 1] == trace[i + 1] && acts'[i] == acts[i];
      }
    }
  }

  lemma PushOne<T>(capacity: nat, trace: seq<Queue<T>>, acts: seq<Action<T>>, v: T, n: nat)
    returns (trace': seq<Queue<T>>, acts': seq<Action<T>>)
    requires IsRun(capacity, trace, acts) && Drained(trace[|acts|], n)
    ensures IsRun(capacity, trace', acts') && trace'[0] == trace[0]
    ensures trace'[|acts'|] == EmplaceAlone(trace[|acts|], v) && |Contents(trace'[|acts'|])| == 1
  {
    var q := trace[|acts|];
    EmplaceAloneKeepsInv(q, v);
    trace', acts' := RunGrows(capacity, trace, acts, StartEmplace(v, false));
    trace', acts' := RunGrows(capacity, trace', acts', LoadTail(n));
    trace', acts' := RunGrows(capacity, trace', acts', Construct);
    trace', acts' := RunGrows(capacity, trace', acts', PublishHead);
  }

  lemma PopOne<T>(capacity: nat, trace: seq<Queue<T>>, acts: seq<Action<T>>)
    returns (trace': seq<Queue<T>>, acts': seq<Action<T>>)
    requires IsRun(capacity, trace, acts) && Inv(trace[|acts|])
    requires trace[|acts|].consumer.Resting? && Contents(trace[|acts|]) != []
    ensures IsRun(capacity, trace', acts') && trace'[0] == trace[0]
    ensures trace'[|acts'|] == PopAlone(trace[|acts|])
  {
    var q := trace[|acts|];
    FrontAloneKeepsInv(q);
    trace', acts' := RunGrows(capacity, trace, acts, StartFront(false));
    trace', acts' := RunGrows(capacity, trace', acts', LoadHead(|q.pushed|));
    trace', acts' := RunGrows(capacity, trace', acts', Destroy);
    trace', acts' := RunGrows(capacity, trace', acts', PublishTail);
  }

  lemma {:induction false} ManyThrough<T>(capacity: nat, v: T, n: nat) returns (trace: seq<Queue<T>>, acts: seq<Action<T>>)
    requires capacity >= 2
    ensures IsRun(capacity, trace, acts) && Drained(trace[|acts|], n)
  {
    if n == 0 {
      trace, acts := [Init(capacity)], [];
      InvInit<T>(capacity);
    } else {
      trace, acts := ManyThrough(capacity, v, n - 1);
      EmplaceAloneKeepsInv(trace[|acts|], v);
      trace, acts := PushOne(capacity, trace, acts, v, n - 1);
      PopAloneKeepsInv(trace[|acts|]);
      trace, acts := PopOne(capacity, trace, acts);
    }
  }

  /**
   The condition does fail: for every number of elements that come and go between the two loads there is a
   run in which the queue is empty at both, and `size` gives that number, or its negative, up to laps.
   */
  lemma BystanderIsOff<T>(capacity: nat, v: T, n: nat) returns (trace: seq<Queue<T>>, acts: seq<Action<T>>)
    requires 2 <= capacity < TWO_63
    ensures IsRun(capacity, trace, acts)
    ensures |trace[0].popped| == |trace[0].pushed| == 0 && |trace[|acts|].popped| == |trace[|acts|].pushed| == n
    ensures SizeOf(capacity, trace[|acts|].head, trace[0].tail) == n % capacity
    ensures SizeOf(capacity, trace[0].head, trace[|acts|].tail) == (0 - n) % capacity
  {
    trace, acts := ManyThrough(capacity, v, n);
    var first, last := trace[0], trace[|acts|];
    assert first.head == 0 && first.tail == 0;
    RunInv(capacity, trace, acts, |acts|);
    SizesOff(capacity, n, last.head);
    assert last.tail == last.head;
  }

  lemma SizesOff(capacity: nat, n: nat, at: nat)
    requires 0 < capacity < TWO_63 && at == n % capacity
    ensures SizeOf(capacity, at, 0) == n % capacity
    ensures SizeOf(capacity, 0, at) == (0 - n) % capacity
  {
    SizeOfRange(capacity, n, 0);
    SizeOfRange(capacity, 0, n);
    ModOf(0, 0, capacity);
    ModOf(0, SizeOf(capacity, n % capacity, 0), capacity);
    ModOf(0, SizeOf(capacity, 0, n % capacity), capacity);
  }

  /** `try_emplace` with no step of the consumer in between. */
  ghost function EmplaceAlone<T>(q: Queue<T>, v: T): Queue<T>
    requires Inv(q) && q.producer.Idle?
  {
    var q2 := Step(Step(q, StartEmplace(v, false)), LoadTail(|q.popped|));
    if q2.producer.Idle? then q2 else Step(Step(q2, Construct), PublishHead)
  }

  /** `front` with no step of the producer in between; the pointer, if any, is still held. */
  ghost function FrontAlone<T>(q: Queue<T>): Queue<T>
    requires Inv(q) && q.consumer.Resting?
  {
    Step(Step(q, StartFront(false)), LoadHead(|q.pushed|))
  }

  lemma EmplaceAloneKeepsInv<T>(q: Queue<T>, v: T)
    requires Inv(q) && q.producer.Idle?
    ensures Inv(EmplaceAlone(q, v))
    ensures Step(Step(q, StartEmplace(v, false)), LoadTail(|q.popped|)).producer.Idle? <==> |Contents(q)| == q.capacity - 1
    ensures Contents(EmplaceAlone(q, v)) == if |Contents(q)| < q.capacity - 1 then Contents(q) + [v] else Contents(q)
  {
    var q1 := Step(q, StartEmplace(v, false));
    InvStep(q, StartEmplace(v, false));
    RoomTest(q1, |q.popped|);
    InvStep(q1, LoadTail(|q.popped|));
    var q2 := Step(q1, LoadTail(|q.popped|));
    if !q2.producer.Idle? {
      InvStep(q2, Construct);
      StepRefinesFifo(Step(q2, Construct), PublishHead);
    }
  }

  lemma FrontAloneKeepsInv<T>(q: Queue<T>)
    requires Inv(q) && q.consumer.Resting?
    ensures Inv(FrontAlone(q)) && Contents(FrontAlone(q)) == Contents(q)
    ensures FrontAlone(q).consumer == if Contents(q) == [] then Resting else Holding(q.tail)
    ensures Contents(q) != [] ==> q.slots[q.tail] == Live(Contents(q)[0])
  {
    InvStep(q, StartFront(false));
    var q1 := Step(q, StartFront(false));
    DataTest(q1, |q.pushed|);
    InvStep(q1, LoadHead(|q.pushed|));
    InvIsSafe(FrontAlone(q), MoveOut);
  }

  /** `pop` with no step of the producer in between. */
  ghost function PopAlone<T>(q: Queue<T>): Queue<T>
    requires Inv(q) && q.consumer.Resting? && Contents(q) != []
  {
    FrontAloneKeepsInv(q);
    Step(Step(FrontAlone(q), Destroy), PublishTail)
  }

  lemma PopAloneKeepsInv<T>(q: Queue<T>)
    requires Inv(q) && q.consumer.Resting? && Contents(q) != []
    ensures Inv(PopAlone(q)) && Contents(PopAlone(q)) == Contents(q)[1..]
    ensures PopAlone(q) == q.(slots := q.slots[q.tail := Raw], tail := Next(q.tail, q.capacity),
                              popped := q.popped + [q.slots[q.tail]], seenPushes := |q.pushed|)
  {
    FrontAloneKeepsInv(q);
    InvStep(FrontAlone(q), Destroy);
    StepRefinesFifo(Step(FrontAlone(q), Destroy), PublishTail);
  }

  /** The queue object: each method runs its atomic steps without interruption by the other side. */
  class SpscRing<T> {
    const capacity: nat
    const slots: array<Slot<T>>
    var head: nat
    var tail: nat
    ghost var pushed: seq<T>
    ghost var popped: seq<Slot<T>>
    ghost var seenPops: nat
    ghost var seenPushes: nat

    ghost function View(): Queue<T>
      reads this, slots
    {
      Queue(capacity, slots[..], head, tail, Idle, Resting, pushed, popped, seenPops, seenPushes)
    }

    ghost predicate Valid()
      reads this, slots
    {
      Inv(View())
    }

    ghost function Elements(): seq<T>
      requires Valid()
      reads this, slots
    {
      Contents(View())
    }

    constructor (capacity: nat)
      requires capacity >= 2
      ensures Valid() && fresh(slots) && this.capacity == capacity && Elements() == []
      ensures View() == Init(capacity)
    {
      this.capacity := capacity;
      slots := new Slot<T>[capacity](_ => Raw);
      head, tail := 0, 0;
      pushed, popped, seenPops, seenPushes := [], [], 0, 0;
      new;
      InvInit<T>(capacity);
      assert View() == Init(capacity);
    }

    /** The constructor throws for a capacity below 2. */
    static method Create(capacity: nat) returns (r: Result<SpscRing<T>>)
      ensures r.Fatal? <==> capacity < 2
      ensures r.Ok? ==> fresh(r.value) && fresh(r.value.slots) && r.value.Valid()
                        && r.value.capacity == capacity && r.value.Elements() == []
    {
      if capacity < 2 {
        return Fatal;
      }
      var ring := new SpscRing<T>(capacity);
      r := Ok(ring);
    }

    method TryEmplace(v: T) returns (ok: bool)
      requires Valid()
      modifies this, slots
      ensures Valid()
      ensures View() == EmplaceAlone(old(View()), v)
      ensures ok <==> |old(Elements())| < capacity - 1
      ensures Elements() == if ok then old(Elements()) + [v] else old(Elements())
    {
      ghost var q := View();
      EmplaceAloneKeepsInv(q, v);
      var next := head + 1;
      if next == capacity {
        next := 0;
      }
      seenPops := |popped|;
      if next == tail {
        return false;
      }
      slots[head] := Live(v);
      head, pushed := next, pushed + [v];
      assert View() == EmplaceAlone(q, v);
      return true;
    }

    method Front() returns (r: Option<T>)
      requires Valid()
      modifies this`seenPushes
      ensures Valid() && Elements() == old(Elements())
      ensures View() == FrontAlone(old(View())).(consumer := Resting)
      ensures r == if Elements() == [] then None else Some(Elements()[0])
    {
      ghost var q := View();
      FrontAloneKeepsInv(q);
      seenPushes := |pushed|;
      assert View() == FrontAlone(q).(consumer := Resting);
      ghost var held := FrontAlone(q);
      if held.consumer.Holding? {
        InvStep(held, Forget);
      }
      if head == tail {
        return None;
      }
      return Some(slots[tail].value);
    }

    /** The caller must know the queue is not empty, as the assertion in `pop` demands. */
    method Pop()
      requires Valid() && Elements() != []
      modifies this, slots
      ensures Valid()
      ensures View() == PopAlone(old(View()))
      ensures Elements() == old(Elements())[1..]
    {
      ghost var q := View();
      PopAloneKeepsInv(q);
      popped := popped + [slots[tail]];
      slots[tail] := Raw;
      var next := tail + 1;
      if next == capacity {
        next := 0;
      }
      tail, seenPushes := next, |pushed|;
      assert View() == PopAlone(q);
    }

    /** `emplace`: spins while there is no room. */
    method Emplace(v: T) returns (r: Call<()>)
      requires Valid()
      modifies this, slots
      ensures Valid()
      ensures r.Returned? <==> |old(Elements())| < capacity - 1
      ensures View() == if r.Returned? then EmplaceAlone(old(View()), v) else old(View())
      ensures Elements() == if r.Returned? then old(Elements()) + [v] else old(Elements())
    {
      RoomTest(View(), |popped|);
      var next := head + 1;
      if next == capacity {
        next := 0;
      }
      if next == tail {
        return Blocked;
      }
      var _ := TryEmplace(v);
      return Returned(());
    }

    /** `blocking_pop`: spins while there is nothing to take. */
    method BlockingPop() returns (r: Call<T>)
      requires Valid()
      modifies this, slots
      ensures Valid()
      ensures r == if old(Elements()) == [] then Blocked else Returned(old(Elements())[0])
      ensures View() == if r.Returned? then PopAlone(old(View())) else old(View())
      ensures Elements() == if r.Returned? then old(Elements())[1..] else []
    {
      ghost var q := View();
      DataTest(q, |pushed|);
      if head == tail {
        return Blocked;
      }
      PopAloneKeepsInv(q);
      var data := Front();
      PopAloneKeepsInv(View());
      r := Returned(data.value);
      Pop();
    }

    method Size() returns (n: nat)
      requires Valid() && capacity < TWO_63
      ensures n == |Elements()|
    {
      EndpointSize(View(), |popped|, |pushed|);
      var size := SizeOf(capacity, head, tail);
      n := size;
    }
  }
}
