/** One worker of the bound thread pool with its queue, one call at a time. */
module PoolWorker {
  import opened SpscQueue

  /** Slots of a worker's queue, one of which always stays empty. */
  const QUEUE_SLOTS: nat := 10

  /** `ran` are the tasks run so far, in order. */
  class Worker<T(0)> {
    const tasks: LockFreeQueue<T>
    var started: bool
    var ran: seq<T>

    ghost predicate Valid()
      reads this, tasks, tasks.buffer
    {
      tasks.Valid() && tasks.capacity == QUEUE_SLOTS && ran == tasks.popped
    }

    constructor ()
      ensures Valid() && fresh(tasks) && fresh(tasks.buffer)
      ensures tasks.pushed == [] && !started
    {
      tasks := new LockFreeQueue<T>(QUEUE_SLOTS);
      started, ran := false, [];
    }

    /** What add_task_to does to its worker; it does not look at whether the queue took it. */
    method AddTask(task: T)
      requires Valid()
      modifies this, tasks, tasks.buffer
      ensures Valid() && started && ran == old(ran)
      ensures tasks.pushed ==
              if old(|tasks.pushed| - |ran|) < QUEUE_SLOTS - 1 then old(tasks.pushed) + [task] else old(tasks.pushed)
    {
      var accepted := tasks.PushBack(task);
      if !started {
        started := true;
      }
    }

    /**
     * The loop of run_ that empties the queue, while nothing is added to it; is_working_ is found
     * cleared after so many rounds, and `idle` is no task yet.
     */
    method Drain(idle: T, rounds: nat)
      requires Valid()
      modifies this, tasks
      ensures Valid() && started == old(started) && tasks.pushed == old(tasks.pushed)
      ensures old(|ran|) + rounds >= |tasks.pushed| ==> ran == tasks.pushed
      ensures old(|ran|) + rounds < |tasks.pushed| ==> ran == tasks.pushed[..old(|ran|) + rounds]
    {
      ghost var n := |ran|;
      RanIsPrefix();
      for i := 0 to rounds
        invariant Valid() && started == old(started) && tasks.pushed == old(tasks.pushed)
        invariant ran <= tasks.pushed && |ran| == n + i
      {
        var size := tasks.Size();
        if size == 0 {
          break;
        }
        var found, task := tasks.PopFront(idle);
        ran := ran + [task];
      }
    }

    lemma RanIsPrefix()
      requires Valid()
      ensures ran <= tasks.pushed
    {
    }
  }
}
