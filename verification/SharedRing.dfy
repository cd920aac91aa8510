/**
 * The broadcast ring: head and tail only grow, slots are taken modulo the size, and reads are
 * clamped into the window. The ghost log records every value ever pushed.
 */
module SharedRing {
  import opened Powers

  /** The head counter of a ring of n slots after k pushes: at most n - 1 values are readable. */
  function HeadOf(n: nat, k: nat): (h: nat)
    requires n > 0
    ensures h <= k
  {
    if k < n then 0 else k - (n - 1)
  }

  /**
   * The log position that a read at index i returns. A ring of one slot never has a readable
   * window, and its only slot keeps the last value pushed.
   */
  function ReadPosition(n: nat, k: nat, i: nat): (p: nat)
    requires n > 0 && k > 0
    ensures p < k
  {
    if i < HeadOf(n, k) then (if n == 1 then k - 1 else HeadOf(n, k))
    else if i >= k then k - 1
    else i
  }

  /** Two indices less than n apart never share a slot. */
  lemma SlotsDiffer(i: nat, j: nat, n: nat)
    requires i < j < i + n
    ensures i % n != j % n
  {
    var d := j / n - i / n;
    assert j - i == n * d + (j % n - i % n);
    assert d >= 1 ==> n * d >= n;
    assert d <= 0 ==> n * d <= 0;
  }

  class SharedCircularBuffer<T(0)> {
    var head: nat
    var tail: nat
    const totalSize: nat
    const buffer: array<T>
    ghost var log: seq<T>

    ghost predicate Valid()
      reads this, buffer
    {
      && totalSize > 0 && buffer.Length == totalSize
      && tail == |log| && head == HeadOf(totalSize, tail)
      && forall i | 0 <= i < tail && tail <= i + totalSize :: buffer[i % totalSize] == log[i]
    }

    constructor (size: nat)
      requires size > 0
      ensures Valid() && log == [] && totalSize == size && fresh(buffer)
    {
      head, tail := 0, 0;
      totalSize := size;
      buffer := new T[size];
      log := [];
    }

    method PushBack(val: T)
      requires Valid()
      modifies this, buffer
      ensures Valid() && log == old(log) + [val]
    {
      var idx := tail % totalSize;
      forall i: nat | tail < i + totalSize && i < tail
        ensures i % totalSize != idx
      {
        SlotsDiffer(i, tail, totalSize);
      }
      buffer[idx] := val;
      tail := tail + 1;
      if tail - head >= totalSize {
        head := head + 1;
      }
      log := log + [val];
    }

    /** The slot the index operator refers to; it is `copy` without taking the value out. */
    method At(idx: nat) returns (slot: nat)
      requires Valid() && idx < SIZE_T
      ensures slot < totalSize
      ensures log != [] ==> slot == ReadPosition(totalSize, |log|, idx) % totalSize
      ensures log != [] ==> buffer[slot] == log[ReadPosition(totalSize, |log|, idx)]
    {
      var i := idx;
      if i < head {
        i := head;
      } else if i >= tail {
        i := (tail + SIZE_T - 1) % SIZE_T;
        assert 0 < tail <= SIZE_T ==> i == tail - 1;
      }
      slot := i % totalSize;
    }

    method Copy(idx: nat) returns (val: T)
      requires Valid() && idx < SIZE_T
      ensures log != [] ==> val == log[ReadPosition(totalSize, |log|, idx)]
      ensures head <= idx < tail ==> val == log[idx]
    {
      var slot := At(idx);
      val := buffer[slot];
    }
  }

  /** The slot the next push overwrites is never one a reader may be given. */
  lemma NextSlotIsNotReadable(n: nat, k: nat, i: nat)
    requires n > 0 && HeadOf(n, k) <= i < k
    ensures i % n != k % n
  {
    SlotsDiffer(i, k, n);
  }

  /** A read with a non-empty window stays inside it. */
  lemma ReadStaysInWindow(n: nat, k: nat, i: nat)
    requires n > 1 && k > 0
    ensures HeadOf(n, k) <= ReadPosition(n, k, i) < k
    ensures HeadOf(n, k) <= i < k ==> ReadPosition(n, k, i) == i
  {
  }
}
