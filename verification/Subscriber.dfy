/** The subscriber and publisher as objects over a shared ring, one method per source method. */
module Subscriber {
  import opened Powers
  import opened SharedRing
  import opened SubscriberRuns

  class LocalPublisher<T(0)> {
    const buffer: SharedCircularBuffer<T>
    var index: nat

    constructor (buffer: SharedCircularBuffer<T>)
      ensures this.buffer == buffer && index == 0
    {
      this.buffer := buffer;
      index := 0;
    }

    method Publish(data: T)
      requires buffer.Valid()
      modifies this, buffer, buffer.buffer
      ensures buffer.Valid() && buffer.log == old(buffer.log) + [data] && index == old(index) + 1
    {
      buffer.PushBack(data);
      index := index + 1;
    }
  }

  /** The reader steps of is_ready_ with no push between them. */
  function IsReadySteps<T>(s: System<T>): System<T>
    requires Ready(s) && s.r.pc == AtHead
  {
    var t := ReaderStep(s);
    var u := if t.r.pc == AtClamp then ReaderStep(t) else t;
    ReaderStep(u)
  }

  /** One turn of spin_once for one subscriber, with no push during it. */
  function SpinOnceSteps<T>(s: System<T>): System<T>
    requires Ready(s) && s.r.pc == AtHead
  {
    var t := IsReadySteps(s);
    var u := if t.r.pc == AtCopy then ReaderStep(t) else t;
    ReaderStep(u)
  }

  /** The index of the oldest message a reader at idx has not passed and the ring still holds. */
  function Oldest(n: nat, k: nat, idx: nat): nat
    requires n > 0
  {
    if idx < HeadOf(n, k) then HeadOf(n, k) else idx
  }

  /** What one undisturbed turn comes to. */
  ghost predicate TakesNext<T>(s: System<T>, t: System<T>)
    requires s.n > 0
  {
    var i := Oldest(s.n, |s.log|, s.r.idx);
    && t.n == s.n && t.bs == s.bs && t.log == s.log && t.r.pc == AtHead
    && t.r.idx == (if i < |s.log| then i + 1 else i)
    && t.r.callbacks == s.r.callbacks + (if i < |s.log| && s.bs >= 1 then [s.log[i]] else [])
  }

  /** A turn during which nothing is published gives the callback the oldest message left, if any. */
  lemma TurnTakesNext<T>(s: System<T>)
    requires Inv(s) && s.r.pc == AtHead
    ensures TakesNext(s, SpinOnceSteps(s)) && Inv(SpinOnceSteps(s))
  {
    var t := IsReadySteps(s);
    LooksForNext(s);
    if t.r.pc == AtCopy {
      TakesAndCalls(t);
    } else {
      StepKeepsInv(t);
    }
  }

  lemma TakesAndCalls<T>(t: System<T>)
    requires Inv(t) && t.r.pc == AtCopy && HeadOf(t.n, |t.log|) <= t.r.idx
    ensures var u := ReaderStep(ReaderStep(t));
            && Inv(u) && u.n == t.n && u.bs == t.bs && u.log == t.log && u.r.pc == AtHead
            && u.r.idx == t.r.idx + 1
            && u.r.callbacks == t.r.callbacks + (if t.bs >= 1 then [t.log[t.r.idx]] else [])
  {
    StepKeepsInv(t);
    StepKeepsInv(ReaderStep(t));
    assert t.r.local == [];
    assert KeepLast([t.log[t.r.idx]], t.bs) == if t.bs >= 1 then [t.log[t.r.idx]] else [];
  }

  lemma LooksForNext<T>(s: System<T>)
    requires Inv(s) && s.r.pc == AtHead
    ensures var t := IsReadySteps(s);
            && Inv(t) && t.n == s.n && t.bs == s.bs && t.log == s.log
            && t.r.callbacks == s.r.callbacks && t.r.local == [] && t.r.idx == Oldest(s.n, |s.log|, s.r.idx)
            && t.r.pc == if t.r.idx < |s.log| then AtCopy else AtSpin
  {
    var t := ReaderStep(s);
    StepKeepsInv(s);
    if t.r.pc == AtClamp {
      StepKeepsInv(t);
      StepKeepsInv(ReaderStep(t));
    } else {
      StepKeepsInv(t);
    }
  }

  /** That many turns with nothing published in between. */
  function Turns<T>(s: System<T>, turns: nat): (t: System<T>)
    requires Inv(s) && s.r.pc == AtHead
    ensures Inv(t) && t.r.pc == AtHead
    decreases turns
  {
    if turns == 0 then s
    else
      TurnTakesNext(s);
      Turns(SpinOnceSteps(s), turns - 1)
  }

  lemma OneTurn<T>(s: System<T>) returns (u: System<T>)
    requires Inv(s) && s.r.pc == AtHead
    ensures Inv(u) && TakesNext(s, u)
    ensures forall turns: nat :: Turns(s, turns + 1) == Turns(u, turns)
  {
    u := SpinOnceSteps(s);
    TurnTakesNext(s);
  }

  /** Everything the ring held for the reader at s has been called back at t, in order. */
  ghost predicate CaughtUp<T>(s: System<T>, t: System<T>)
    requires s.n > 0 && Oldest(s.n, |s.log|, s.r.idx) <= |s.log|
  {
    && t.n == s.n && t.log == s.log && Oldest(s.n, |s.log|, t.r.idx) == |s.log|
    && t.r.callbacks == s.r.callbacks + s.log[Oldest(s.n, |s.log|, s.r.idx)..]
  }

  lemma CaughtUpNext<T>(s: System<T>, u: System<T>, t: System<T>)
    requires s.n > 0 && s.bs >= 1 && TakesNext(s, u) && Oldest(s.n, |s.log|, s.r.idx) < |s.log|
    requires Oldest(u.n, |u.log|, u.r.idx) <= |u.log| && CaughtUp(u, t)
    ensures CaughtUp(s, t)
  {
    var i := Oldest(s.n, |s.log|, s.r.idx);
    OldestIsNext(s.n, |s.log|, i);
    CallsInOrder(s.r.callbacks, s.log, i);
  }

  lemma NothingLeft<T>(s: System<T>)
    requires Inv(s)
    ensures s.n > 0 && Oldest(s.n, |s.log|, s.r.idx) <= |s.log|
    ensures Oldest(s.n, |s.log|, s.r.idx) == |s.log| ==> CaughtUp(s, s)
  {
    assert s.log[|s.log|..] == [];
  }

  /** Left alone, a reader calls back everything the ring still holds for it, in order, one message a turn. */
  lemma {:induction false} ReaderCatchesUp<T>(s: System<T>, turns: nat)
    requires Inv(s) && s.r.pc == AtHead && s.bs >= 1
    requires turns == |s.log| - Oldest(s.n, |s.log|, s.r.idx)
    ensures Oldest(s.n, |s.log|, s.r.idx) <= |s.log| && CaughtUp(s, Turns(s, turns))
    decreases turns
  {
    NothingLeft(s);
    if turns > 0 {
      var u := OneTurn(s);
      OldestIsNext(s.n, |s.log|, Oldest(s.n, |s.log|, s.r.idx));
      ReaderCatchesUp(u, turns - 1);
      assert Turns(s, turns) == Turns(u, turns - 1);
      CaughtUpNext(s, u, Turns(u, turns - 1));
    }
  }

  lemma OldestIsNext(n: nat, k: nat, i: nat)
    requires n > 0 && HeadOf(n, k) <= i
    ensures Oldest(n, k, i + 1) == i + 1
  {
  }

  lemma CallsInOrder<T>(callbacks: seq<T>, log: seq<T>, i: nat)
    requires i < |log|
    ensures callbacks + [log[i]] + log[i + 1..] == callbacks + log[i..]
  {
  }

  class LocalSubscriber<T(0)> {
    const bufferSize: nat
    const dataBuffer: SharedCircularBuffer<T>
    var idx: nat
    var buffer: seq<T>

    /** The state of the run as this reader last saw it; publishers may have pushed since. */
    ghost var seen: System<T>

    ghost predicate Valid()
      reads this, dataBuffer, dataBuffer.buffer
    {
      && dataBuffer.Valid() && |dataBuffer.log| < SIZE_T
      && seen.n == dataBuffer.totalSize && seen.bs == bufferSize
      && seen.log <= dataBuffer.log
      && seen.r.idx == idx <= |seen.log| && seen.r.local == buffer
      && Ready(seen)
      && |buffer| <= 1 && (seen.r.pc != AtSpin ==> buffer == [])
    }

    /** The same run, with everything published up to now. */
    ghost function Now(): System<T>
      reads this, dataBuffer
    {
      seen.(log := dataBuffer.log)
    }

    /** Construction followed by connecte_to_. */
    constructor (dataBuffer: SharedCircularBuffer<T>, bufferSize: nat)
      requires dataBuffer.Valid() && |dataBuffer.log| < SIZE_T
      ensures Valid() && this.dataBuffer == dataBuffer && this.bufferSize == bufferSize
      ensures seen == Connect(dataBuffer.totalSize, bufferSize, dataBuffer.log)
    {
      this.bufferSize := bufferSize;
      this.dataBuffer := dataBuffer;
      idx := dataBuffer.tail;
      buffer := [];
      seen := Connect(dataBuffer.totalSize, bufferSize, dataBuffer.log);
    }

    method IsReady() returns (ready: bool)
      requires Valid() && seen.r.pc == AtHead
      modifies this
      ensures Valid() && seen == IsReadySteps(old(Now()))
      ensures ready <==> seen.r.pc == AtCopy
      ensures idx == Oldest(dataBuffer.totalSize, |dataBuffer.log|, old(idx))
      ensures ready <==> idx < |dataBuffer.log|
      ensures buffer == old(buffer) && seen.r.callbacks == old(seen.r.callbacks)
    {
      seen := IsReadySteps(Now());
      if idx < dataBuffer.head {
        idx := dataBuffer.head;
      }
      return idx < dataBuffer.tail;
    }

    method Invoke()
      requires Valid() && seen.r.pc == AtCopy
      modifies this
      ensures Valid() && seen == ReaderStep(old(Now()))
      ensures idx == old(idx) + 1 && seen.r.callbacks == old(seen.r.callbacks)
      ensures buffer == if bufferSize == 0 then []
                        else [dataBuffer.log[ReadPosition(dataBuffer.totalSize, |dataBuffer.log|, old(idx))]]
    {
      seen := ReaderStep(Now());
      var it := dataBuffer.Copy(idx);
      buffer := buffer + [it];
      if |buffer| > bufferSize {
        buffer := buffer[1..];
      }
      idx := idx + 1;
    }

    /** The out-parameter is the message the callback is given, if it is called. */
    method Spin() returns (called: seq<T>)
      requires Valid() && seen.r.pc == AtSpin
      modifies this
      ensures Valid() && seen == ReaderStep(old(Now()))
      ensures seen.r.callbacks == old(seen.r.callbacks) + called
      ensures called == old(buffer) && idx == old(idx)
    {
      seen := ReaderStep(Now());
      called := [];
      if buffer != [] {
        called := [buffer[0]];
        buffer := buffer[1..];
      }
    }

    /** One turn: the oldest message not passed and not overrun, if there is one, reaches the callback. */
    method SpinOnce() returns (called: seq<T>)
      requires Valid() && seen.r.pc == AtHead
      modifies this
      ensures Valid() && seen == SpinOnceSteps(old(Now()))
      ensures var log, i := dataBuffer.log, Oldest(dataBuffer.totalSize, |dataBuffer.log|, old(idx));
              if i < |log| then idx == i + 1 && called == if bufferSize >= 1 then [log[i]] else []
              else idx == i && called == []
      ensures seen.r.callbacks == old(seen.r.callbacks) + called
    {
      var ready := IsReady();
      if ready {
        Invoke();
      }
      called := Spin();
    }
  }
}
