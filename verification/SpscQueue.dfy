/**
 * The single-producer single-consumer ring queue. QueueState splits its operations into the
 * individual loads and stores of two threads; the class runs each operation undisturbed.
 */
module SpscQueue {
  import opened SharedRing

  /**
   * push_back: after loading tail, after finding room against a loaded head, after writing the
   * slot. The head may move on after it was loaded.
   */
  datatype Producer<T> =
    | PIdle
    | PLoadedTail(value: T, currentTail: nat)
    | PFoundRoom(value: T, currentTail: nat)
    | PWrote(value: T, currentTail: nat)

  /** pop_front: after loading head, after finding an element, after reading the slot. */
  datatype Consumer<T> =
    | CIdle
    | CLoadedHead(currentHead: nat)
    | CFound(currentHead: nat)
    | CRead(currentHead: nat, value: T)

  /** `pushed` are the values accepted and `popped` those delivered, in order. */
  datatype QueueState<T> = QueueState(
    capacity: nat, buffer: seq<T>, head: nat, tail: nat,
    p: Producer<T>, c: Consumer<T>,
    pushed: seq<T>, popped: seq<T>)

  predicate Sane<T>(q: QueueState<T>) {
    && q.capacity > 0 && |q.buffer| == q.capacity
    && (q.p.PFoundRoom? ==> q.p.currentTail < q.capacity)
    && (q.c.CFound? ==> q.c.currentHead < q.capacity)
  }

  function NextIndex<T>(q: QueueState<T>, i: nat): nat
    requires Sane(q)
  {
    (i + 1) % q.capacity
  }

  function Empty<T>(capacity: nat, buffer: seq<T>): QueueState<T> {
    QueueState(capacity, buffer, 0, 0, PIdle, CIdle, [], [])
  }

  // ---------------------------------------------------------------- steps

  function StartPush<T>(q: QueueState<T>, value: T): QueueState<T>
    requires Sane(q) && q.p.PIdle?
  {
    q.(p := PLoadedTail(value, q.tail))
  }

  predicate Rejects<T>(q: QueueState<T>)
    requires Sane(q)
  {
    q.p.PLoadedTail? && NextIndex(q, q.p.currentTail) == q.head
  }

  function ProducerStep<T>(q: QueueState<T>): QueueState<T>
    requires Sane(q)
  {
    match q.p
    case PIdle => q
    case PLoadedTail(v, t) => q.(p := if Rejects(q) then PIdle else PFoundRoom(v, t % q.capacity))
    case PFoundRoom(v, t) => q.(buffer := q.buffer[t := v], p := PWrote(v, t))
    case PWrote(v, t) => q.(tail := NextIndex(q, t), p := PIdle, pushed := q.pushed + [v])
  }

  function StartPop<T>(q: QueueState<T>): QueueState<T>
    requires Sane(q) && q.c.CIdle?
  {
    q.(c := CLoadedHead(q.head))
  }

  predicate FindsEmpty<T>(q: QueueState<T>) {
    q.c.CLoadedHead? && q.c.currentHead == q.tail
  }

  function ConsumerStep<T>(q: QueueState<T>): QueueState<T>
    requires Sane(q)
  {
    match q.c
    case CIdle => q
    case CLoadedHead(h) => q.(c := if FindsEmpty(q) then CIdle else CFound(h % q.capacity))
    case CFound(h) => q.(c := CRead(h, q.buffer[h]))
    case CRead(h, v) => q.(head := NextIndex(q, h), c := CIdle, popped := q.popped + [v])
  }

  ghost predicate Next<T(!new)>(q: QueueState<T>, r: QueueState<T>) {
    && Sane(q)
    && (|| r == ProducerStep(q) || r == ConsumerStep(q)
        || (q.p.PIdle? && exists v :: r == StartPush(q, v))
        || (q.c.CIdle? && r == StartPop(q)))
  }

  // ---------------------------------------------------------------- invariant

  ghost predicate ProducerInv<T>(q: QueueState<T>) {
    match q.p
    case PIdle => true
    case PLoadedTail(_, t) => t == q.tail
    case PFoundRoom(_, t) => t == q.tail && |q.pushed| - |q.popped| < q.capacity - 1
    case PWrote(v, t) => t == q.tail < |q.buffer| && |q.pushed| - |q.popped| < q.capacity - 1 && q.buffer[t] == v
  }

  ghost predicate ConsumerInv<T>(q: QueueState<T>) {
    match q.c
    case CIdle => true
    case CLoadedHead(h) => h == q.head
    case CFound(h) => h == q.head && |q.popped| < |q.pushed|
    case CRead(h, v) => h == q.head && |q.popped| < |q.pushed| && v == q.pushed[|q.popped|]
  }

  ghost predicate Inv<T>(q: QueueState<T>) {
    && Sane(q)
    && q.head == |q.popped| % q.capacity && q.tail == |q.pushed| % q.capacity
    && |q.popped| <= |q.pushed| <= |q.popped| + q.capacity - 1
    && q.popped == q.pushed[..|q.popped|]
    && (forall i | |q.popped| <= i < |q.pushed| :: q.buffer[i % q.capacity] == q.pushed[i])
    && ProducerInv(q) && ConsumerInv(q)
  }

  lemma NextIndexCounts(x: nat, n: nat)
    requires n > 0
    ensures (x % n + 1) % n == (x + 1) % n
  {
    var r, d := x % n + 1, x / n;
    assert x + 1 == n * d + r;
    if r == n {
      assert n * (d + 1) == n * d + n;
      Remainder(d + 1, n, 0, x + 1);
      Remainder(1, n, 0, r);
    } else {
      Remainder(d, n, r, x + 1);
      Remainder(0, n, r, r);
    }
  }

  lemma Remainder(d: int, n: int, r: int, x: int)
    requires n > 0 && 0 <= r < n && x == n * d + r
    ensures x % n == r
  {
    var e := x / n - d;
    assert n * e == r - x % n;
    assert e >= 1 ==> n * e >= n;
    assert e <= -1 ==> n * e <= -n;
  }

  /** With at least one and fewer than n elements between them, the two indices differ. */
  lemma IndicesDiffer(popped: nat, pushed: nat, n: nat)
    requires n > 0 && popped <= pushed < popped + n
    ensures popped % n == pushed % n <==> popped == pushed
  {
    if popped < pushed {
      SlotsDiffer(popped, pushed, n);
    }
  }

  lemma LoadHeadKeepsInv<T>(q: QueueState<T>)
    requires Inv(q) && q.p.PLoadedTail?
    ensures Inv(ProducerStep(q))
    ensures Rejects(q) <==> |q.pushed| - |q.popped| == q.capacity - 1
  {
    NextIndexCounts(|q.pushed|, q.capacity);
    if |q.pushed| + 1 < |q.popped| + q.capacity {
      IndicesDiffer(|q.popped|, |q.pushed| + 1, q.capacity);
    } else {
      Remainder(1, q.capacity, 0, q.capacity);
      WrapsOnce(|q.popped|, q.capacity);
    }
    SmallRemainder(|q.pushed|, q.capacity);
  }

  lemma WrapsOnce(x: nat, n: nat)
    requires n > 0
    ensures (x + n) % n == x % n
  {
    assert x + n == n * (x / n + 1) + x % n;
    Remainder(x / n + 1, n, x % n, x + n);
  }

  lemma SmallRemainder(x: nat, n: nat)
    requires n > 0
    ensures (x % n) % n == x % n < n
  {
    Remainder(0, n, x % n, x % n);
  }

  lemma WriteKeepsInv<T>(q: QueueState<T>)
    requires Inv(q) && q.p.PFoundRoom?
    ensures Inv(ProducerStep(q))
  {
    var r := ProducerStep(q);
    forall i | |q.popped| <= i < |q.pushed|
      ensures r.buffer[i % q.capacity] == r.pushed[i]
    {
      SlotsDiffer(i, |q.pushed|, q.capacity);
    }
  }

  lemma StoreTailKeepsInv<T>(q: QueueState<T>)
    requires Inv(q) && q.p.PWrote?
    ensures Inv(ProducerStep(q))
  {
    NextIndexCounts(|q.pushed|, q.capacity);
  }

  lemma ProducerKeepsInv<T>(q: QueueState<T>)
    requires Inv(q)
    ensures Inv(ProducerStep(q))
    ensures Rejects(q) <==> q.p.PLoadedTail? && |q.pushed| - |q.popped| == q.capacity - 1
  {
    if q.p.PLoadedTail? {
      LoadHeadKeepsInv(q);
    } else if q.p.PFoundRoom? {
      WriteKeepsInv(q);
    } else if q.p.PWrote? {
      StoreTailKeepsInv(q);
    }
  }

  lemma LoadTailKeepsInv<T>(q: QueueState<T>)
    requires Inv(q) && q.c.CLoadedHead?
    ensures Inv(ConsumerStep(q))
    ensures FindsEmpty(q) <==> |q.pushed| == |q.popped|
  {
    IndicesDiffer(|q.popped|, |q.pushed|, q.capacity);
    SmallRemainder(|q.popped|, q.capacity);
  }

  lemma StoreHeadKeepsInv<T>(q: QueueState<T>)
    requires Inv(q) && q.c.CRead?
    ensures Inv(ConsumerStep(q))
  {
    NextIndexCounts(|q.popped|, q.capacity);
  }

  lemma ConsumerKeepsInv<T>(q: QueueState<T>)
    requires Inv(q)
    ensures Inv(ConsumerStep(q))
    ensures FindsEmpty(q) <==> q.c.CLoadedHead? && |q.pushed| == |q.popped|
  {
    if q.c.CLoadedHead? {
      LoadTailKeepsInv(q);
    } else if q.c.CRead? {
      StoreHeadKeepsInv(q);
    }
  }

  // ---------------------------------------------------------------- linearizability

  /** What the queue holds, as a bounded first-in first-out list. */
  function Contents<T>(q: QueueState<T>): seq<T>
    requires |q.popped| <= |q.pushed|
  {
    q.pushed[|q.popped|..]
  }

  /** An operation of the abstract queue that takes effect at one step of the concrete one. */
  datatype Effect<T> = NoEffect | Accept(v: T) | Reject | Deliver(w: T) | FindEmpty

  /** Exactly the steps that store an index, and the loads that find the queue full or empty. */
  function ProducerEffect<T>(q: QueueState<T>): Effect<T>
    requires Sane(q)
  {
    if q.p.PWrote? then Accept(q.p.value) else if Rejects(q) then Reject else NoEffect
  }

  function ConsumerEffect<T>(q: QueueState<T>): Effect<T> {
    if q.c.CRead? then Deliver(q.c.value) else if FindsEmpty(q) then FindEmpty else NoEffect
  }

  /** The sequential specification of a queue that holds at most capacity - 1 values. */
  ghost predicate Performs<T>(capacity: nat, before: seq<T>, e: Effect<T>, after: seq<T>) {
    match e
    case NoEffect => after == before
    case Accept(v) => |before| < capacity - 1 && after == before + [v]
    case Reject => |before| == capacity - 1 && after == before
    case Deliver(w) => before != [] && w == before[0] && after == before[1..]
    case FindEmpty => before == [] && after == before
  }

  /** Each step of either thread performs its operation on the abstract queue at once, or none. */
  lemma StepsRefineBoundedFifo<T>(q: QueueState<T>)
    requires Inv(q)
    ensures Inv(ProducerStep(q)) && Inv(ConsumerStep(q))
    ensures Performs(q.capacity, Contents(q), ProducerEffect(q), Contents(ProducerStep(q)))
    ensures Performs(q.capacity, Contents(q), ConsumerEffect(q), Contents(ConsumerStep(q)))
  {
    ProducerRefines(q);
    ConsumerRefines(q);
  }

  lemma ProducerRefines<T>(q: QueueState<T>)
    requires Inv(q)
    ensures Inv(ProducerStep(q))
    ensures Performs(q.capacity, Contents(q), ProducerEffect(q), Contents(ProducerStep(q)))
  {
    ProducerKeepsInv(q);
  }

  lemma ConsumerRefines<T>(q: QueueState<T>)
    requires Inv(q)
    ensures Inv(ConsumerStep(q))
    ensures Performs(q.capacity, Contents(q), ConsumerEffect(q), Contents(ConsumerStep(q)))
  {
    ConsumerKeepsInv(q);
  }

  // ---------------------------------------------------------------- what one call does

  /** A turn of either thread; between its own calls the other one starts the next. */
  datatype Turn<T> = PushTurn(next: T) | PopTurn

  /** A turn while the producer is in one call and the consumer pops again and again. */
  function DuringPush<T>(q: QueueState<T>, turn: Turn<T>): QueueState<T>
    requires Sane(q)
  {
    if turn.PushTurn? then ProducerStep(q) else if q.c.CIdle? then StartPop(q) else ConsumerStep(q)
  }

  /** A turn while the consumer is in one call and the producer pushes again and again. */
  function DuringPop<T>(q: QueueState<T>, turn: Turn<T>): QueueState<T>
    requires Sane(q)
  {
    if turn.PopTurn? then ConsumerStep(q) else if q.p.PIdle? then StartPush(q, turn.next) else ProducerStep(q)
  }

  lemma TurnKeepsInv<T>(q: QueueState<T>, turn: Turn<T>)
    requires Inv(q)
    ensures Inv(DuringPush(q, turn)) && Inv(DuringPop(q, turn))
  {
    ProducerKeepsInv(q);
    ConsumerKeepsInv(q);
  }

  ghost function AfterPush<T>(q: QueueState<T>, turns: seq<Turn<T>>): QueueState<T>
    requires Inv(q)
    decreases |turns|
  {
    if turns == [] then q
    else
      TurnKeepsInv(q, turns[0]);
      AfterPush(DuringPush(q, turns[0]), turns[1..])
  }

  ghost function AfterPop<T>(q: QueueState<T>, turns: seq<Turn<T>>): QueueState<T>
    requires Inv(q)
    decreases |turns|
  {
    if turns == [] then q
    else
      TurnKeepsInv(q, turns[0]);
      AfterPop(DuringPop(q, turns[0]), turns[1..])
  }

  function Visible<T>(e: Effect<T>): seq<Effect<T>> {
    if e == NoEffect then [] else [e]
  }

  /** What the producer's turns do to the abstract queue, in order. */
  ghost function PushEffects<T>(q: QueueState<T>, turns: seq<Turn<T>>): seq<Effect<T>>
    requires Inv(q)
    decreases |turns|
  {
    if turns == [] then []
    else
      TurnKeepsInv(q, turns[0]);
      (if turns[0].PushTurn? then Visible(ProducerEffect(q)) else [])
      + PushEffects(DuringPush(q, turns[0]), turns[1..])
  }

  ghost function PopEffects<T>(q: QueueState<T>, turns: seq<Turn<T>>): seq<Effect<T>>
    requires Inv(q)
    decreases |turns|
  {
    if turns == [] then []
    else
      TurnKeepsInv(q, turns[0]);
      (if turns[0].PopTurn? then Visible(ConsumerEffect(q)) else [])
      + PopEffects(DuringPop(q, turns[0]), turns[1..])
  }

  function PushTurns<T>(turns: seq<Turn<T>>): nat {
    if turns == [] then 0 else (if turns[0].PushTurn? then 1 else 0) + PushTurns(turns[1..])
  }

  function PopTurns<T>(turns: seq<Turn<T>>): nat {
    if turns == [] then 0 else (if turns[0].PopTurn? then 1 else 0) + PopTurns(turns[1..])
  }

  function PushLeft<T>(p: Producer<T>): nat {
    match p
    case PIdle => 0
    case PLoadedTail(_, _) => 3
    case PFoundRoom(_, _) => 2
    case PWrote(_, _) => 1
  }

  function PopLeft<T>(c: Consumer<T>): nat {
    match c
    case CIdle => 0
    case CLoadedHead(_) => 3
    case CFound(_) => 2
    case CRead(_, _) => 1
  }

  lemma {:induction false} IdlePushIsOver<T>(q: QueueState<T>, turns: seq<Turn<T>>)
    requires Inv(q) && q.p.PIdle?
    ensures AfterPush(q, turns).p.PIdle? && PushEffects(q, turns) == []
    decreases |turns|
  {
    if turns != [] {
      TurnKeepsInv(q, turns[0]);
      IdlePushIsOver(DuringPush(q, turns[0]), turns[1..]);
    }
  }

  lemma {:induction false} IdlePopIsOver<T>(q: QueueState<T>, turns: seq<Turn<T>>)
    requires Inv(q) && q.c.CIdle?
    ensures AfterPop(q, turns).c.CIdle? && PopEffects(q, turns) == []
    decreases |turns|
  {
    if turns != [] {
      TurnKeepsInv(q, turns[0]);
      IdlePopIsOver(DuringPop(q, turns[0]), turns[1..]);
    }
  }

  lemma PushGoesOn<T>(q: QueueState<T>)
    requires Inv(q) && !q.p.PIdle?
    ensures var r := ProducerStep(q);
            if r.p.PIdle? then ProducerEffect(q) == Accept(q.p.value) || ProducerEffect(q) == Reject
            else ProducerEffect(q) == NoEffect && r.p.value == q.p.value && PushLeft(r.p) < PushLeft(q.p)
  {
  }

  lemma PopGoesOn<T>(q: QueueState<T>)
    requires Inv(q) && !q.c.CIdle?
    ensures var r := ConsumerStep(q);
            if r.c.CIdle? then ConsumerEffect(q).Deliver? || ConsumerEffect(q) == FindEmpty
            else ConsumerEffect(q) == NoEffect && PopLeft(r.c) < PopLeft(q.c)
  {
  }

  /**
   * However the consumer's steps fall between, a push is over after at most three steps of its own,
   * and by then has done exactly one thing: accepted its own value, or found the queue full.
   */
  lemma {:induction false} PushPerformsOnce<T>(q: QueueState<T>, turns: seq<Turn<T>>)
    requires Inv(q) && !q.p.PIdle?
    ensures PushTurns(turns) >= PushLeft(q.p) ==> AfterPush(q, turns).p.PIdle?
    ensures if AfterPush(q, turns).p.PIdle?
            then PushEffects(q, turns) == [Accept(q.p.value)] || PushEffects(q, turns) == [Reject]
            else PushEffects(q, turns) == []
    decreases |turns|
  {
    if turns != [] {
      var r, rest := DuringPush(q, turns[0]), turns[1..];
      TurnKeepsInv(q, turns[0]);
      PushGoesOn(q);
      if r.p.PIdle? {
        IdlePushIsOver(r, rest);
      } else {
        PushPerformsOnce(r, rest);
      }
    }
  }

  /** A pop likewise: it has delivered one value, or found the queue empty. */
  lemma {:induction false} PopPerformsOnce<T>(q: QueueState<T>, turns: seq<Turn<T>>)
    requires Inv(q) && !q.c.CIdle?
    ensures PopTurns(turns) >= PopLeft(q.c) ==> AfterPop(q, turns).c.CIdle?
    ensures if AfterPop(q, turns).c.CIdle?
            then exists e :: PopEffects(q, turns) == [e] && (e.Deliver? || e == FindEmpty)
            else PopEffects(q, turns) == []
    decreases |turns|
  {
    if turns != [] {
      var r, rest := DuringPop(q, turns[0]), turns[1..];
      TurnKeepsInv(q, turns[0]);
      PopGoesOn(q);
      if r.c.CIdle? {
        IdlePopIsOver(r, rest);
        assert PopEffects(q, turns) == [ConsumerEffect(q)];
      } else {
        PopPerformsOnce(r, rest);
      }
    }
  }

  /** While the producer may write its slot, the consumer is never reading that one. */
  lemma WrittenSlotIsNotRead<T>(q: QueueState<T>)
    requires Inv(q) && q.p.PFoundRoom? && q.c.CFound?
    ensures q.p.currentTail != q.c.currentHead
  {
    IndicesDiffer(|q.popped|, |q.pushed|, q.capacity);
  }

  ghost predicate Trace<T(!new)>(tr: seq<QueueState<T>>) {
    && |tr| > 0 && tr[0].capacity > 0 && |tr[0].buffer| == tr[0].capacity
    && tr[0] == Empty(tr[0].capacity, tr[0].buffer)
    && forall i | 0 <= i < |tr| - 1 :: Next(tr[i], tr[i + 1])
  }

  /** Under any interleaving the values popped are the first of those accepted, never too many held. */
  lemma {:induction false} PoppedIsPrefix<T(!new)>(tr: seq<QueueState<T>>, i: nat)
    requires Trace(tr) && i < |tr|
    ensures Inv(tr[i]) && tr[i].capacity == tr[0].capacity
    ensures tr[i].popped <= tr[i].pushed
    ensures |tr[i].pushed| - |tr[i].popped| <= tr[0].capacity - 1
  {
    if i > 0 {
      PoppedIsPrefix(tr, i - 1);
      var q, r := tr[i - 1], tr[i];
      assert Next(tr[i - 1], tr[i - 1 + 1]);
      ProducerKeepsInv(q);
      ConsumerKeepsInv(q);
      if q.p.PIdle? && exists v :: r == StartPush(q, v) {
        var v :| r == StartPush(q, v);
      }
    }
  }

  // ---------------------------------------------------------------- size()

  /** What size() returns for a tail loaded before a head. */
  function SizeOf(capacity: nat, tail: nat, head: nat): nat
    requires capacity > 0 && head <= capacity
  {
    (tail - head + capacity) % capacity
  }

  /** Read by the consumer, size() is the number of values that were in the queue at the first load. */
  lemma SizeCounts(capacity: nat, pushed: nat, popped: nat)
    requires capacity > 0 && popped <= pushed < popped + capacity
    ensures SizeOf(capacity, pushed % capacity, popped % capacity) == pushed - popped
  {
    var a, b := pushed / capacity, popped / capacity;
    var x := pushed % capacity - popped % capacity + capacity;
    assert x == capacity * (1 + b - a) + (pushed - popped);
    Remainder(1 + b - a, capacity, pushed - popped, x);
  }

  // ---------------------------------------------------------------- one operation at a time

  /** All steps of a push that nothing comes between. */
  lemma PushAlone<T>(q: QueueState<T>, value: T)
    requires Inv(q) && q.p.PIdle?
    ensures q.tail < q.capacity
    ensures NextIndex(q, q.tail) == q.head <==> |q.pushed| - |q.popped| == q.capacity - 1
    ensures NextIndex(q, q.tail) != q.head ==>
              Inv(q.(buffer := q.buffer[q.tail := value], tail := NextIndex(q, q.tail), pushed := q.pushed + [value]))
  {
    var loaded := StartPush(q, value);
    LoadHeadKeepsInv(loaded);
    SmallRemainder(|q.pushed|, q.capacity);
    if !Rejects(loaded) {
      WriteKeepsInv(ProducerStep(loaded));
      StoreTailKeepsInv(ProducerStep(ProducerStep(loaded)));
    }
  }

  lemma PopAlone<T>(q: QueueState<T>)
    requires Inv(q) && q.c.CIdle?
    ensures q.head < q.capacity
    ensures q.head == q.tail <==> |q.pushed| == |q.popped|
    ensures q.head != q.tail ==>
              && q.buffer[q.head] == q.pushed[|q.popped|]
              && Inv(q.(head := NextIndex(q, q.head), popped := q.popped + [q.buffer[q.head]]))
  {
    var loaded := StartPop(q);
    LoadTailKeepsInv(loaded);
    SmallRemainder(|q.popped|, q.capacity);
    if !FindsEmpty(loaded) {
      StoreHeadKeepsInv(ConsumerStep(ConsumerStep(loaded)));
    }
  }

  class LockFreeQueue<T(0)> {
    const capacity: nat
    const buffer: array<T>
    var head: nat
    var tail: nat
    ghost var pushed: seq<T>
    ghost var popped: seq<T>

    ghost function State(): QueueState<T>
      reads this, buffer
    {
      QueueState(capacity, buffer[..], head, tail, PIdle, CIdle, pushed, popped)
    }

    ghost predicate Valid()
      reads this, buffer
    {
      Inv(State())
    }

    constructor (capacity: nat)
      requires capacity > 0
      ensures Valid() && this.capacity == capacity && pushed == [] && popped == [] && fresh(buffer)
    {
      this.capacity := capacity;
      buffer := new T[capacity];
      head, tail := 0, 0;
      pushed, popped := [], [];
    }

    method PushBack(value: T) returns (accepted: bool)
      requires Valid()
      modifies this, buffer
      ensures Valid() && popped == old(popped)
      ensures accepted <==> old(|pushed| - |popped|) < capacity - 1
      ensures pushed == if accepted then old(pushed) + [value] else old(pushed)
    {
      PushAlone(State(), value);
      var currentTail := tail;
      var nextTail := (currentTail + 1) % capacity;
      if nextTail == head {
        return false;
      }
      buffer[currentTail] := value;
      tail := nextTail;
      pushed := pushed + [value];
      return true;
    }

    /** `initial` is what the output argument held before; it stays when the queue is empty. */
    method PopFront(initial: T) returns (found: bool, value: T)
      requires Valid()
      modifies this
      ensures Valid() && pushed == old(pushed)
      ensures found <==> old(|popped|) < |pushed|
      ensures found ==> value == pushed[old(|popped|)] && popped == old(popped) + [value]
      ensures !found ==> popped == old(popped) && value == initial
    {
      PopAlone(State());
      var currentHead := head;
      if currentHead == tail {
        return false, initial;
      }
      value := buffer[currentHead];
      head := (currentHead + 1) % capacity;
      popped := popped + [value];
      found := true;
    }

    method Size() returns (size: nat)
      requires Valid()
      ensures size == |pushed| - |popped|
    {
      SizeCounts(capacity, |pushed|, |popped|);
      var currentTail := tail;
      var currentHead := head;
      return (currentTail - currentHead + capacity) % capacity;
    }
  }
}
