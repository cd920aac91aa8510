/**
 * One worker of the bound thread pool, asleep on its condition variable when its queue is empty,
 * and everyone who may wake it: a producer in add_task_to, the destructor of the pool, and
 * spin_once. Every load, store, lock, unlock, wait and notify is a step of its own.
 */
module WorkerWakeup {
  import opened SpscQueue

  /** Who holds the worker's mutex. */
  datatype Owner = Nobody | TheWorker | TheProducer | TheDestructor | TheSpinner

  /** Where run_ has got to; a tail loaded by size() is kept with the number of pushes it stood for. */
  datatype WorkerPc =
    | AtTop | AtInner
    | AtDrainSize | AtDrainSizeHead(tail: nat, pushes: nat) | Popping | Running
    | AtIdleSize | AtIdleSizeHead(tail: nat, pushes: nat) | AtStopCheck
    | Locking | AtPredicate | AtPredicateHead(tail: nat, pushes: nat) | AtPredicateStop | Waiting
    | Asleep | Relocking | Unlocking | Exited

  /** Someone who will notify: not yet bound to, bound to, holding the mutex, or having notified. */
  datatype NotifierPc = Quiet | MustNotify | Holding | Notified

  datatype System<T> = System(
    q: QueueState<T>, isWorking: bool, mutex: Owner,
    worker: WorkerPc, producer: NotifierPc, destructor: NotifierPc, spinner: NotifierPc)

  predicate Ready<T>(s: System<T>) {
    && Sane(s.q) && s.q.head <= s.q.capacity
    && (s.worker == AtDrainSize ==> s.q.c.CIdle?)
  }

  function Start<T>(capacity: nat, buffer: seq<T>): System<T> {
    System(Empty(capacity, buffer), true, Nobody, AtTop, Quiet, Quiet, Quiet)
  }

  // ---------------------------------------------------------------- the worker

  function LoadedSize<T>(s: System<T>, tail: nat): nat
    requires Ready(s)
  {
    SizeOf(s.q.capacity, tail, s.q.head)
  }

  function WorkerStep<T>(s: System<T>): System<T>
    requires Ready(s)
  {
    var now := |s.q.pushed|;
    match s.worker
    case AtTop => s.(worker := if s.isWorking then AtInner else Exited)
    case AtInner => s.(worker := if s.isWorking then AtDrainSize else AtIdleSize)
    case AtDrainSize => s.(worker := AtDrainSizeHead(s.q.tail, now))
    case AtDrainSizeHead(t, _) =>
      if LoadedSize(s, t) == 0 then s.(worker := AtIdleSize)
      else if s.q.c.CIdle? then s.(worker := Popping, q := StartPop(s.q))
      else s
    case Popping =>
      var r := ConsumerStep(s.q);
      s.(q := r, worker := if r.c.CIdle? then Running else Popping)
    case Running => s.(worker := AtInner)
    case AtIdleSize => s.(worker := AtIdleSizeHead(s.q.tail, now))
    case AtIdleSizeHead(t, _) => s.(worker := if LoadedSize(s, t) == 0 then AtStopCheck else AtTop)
    case AtStopCheck => s.(worker := if s.isWorking then Locking else Exited)
    case Locking => if s.mutex == Nobody then s.(mutex := TheWorker, worker := AtPredicate) else s
    case AtPredicate => s.(worker := AtPredicateHead(s.q.tail, now))
    case AtPredicateHead(t, _) => s.(worker := if LoadedSize(s, t) == 0 then AtPredicateStop else Unlocking)
    case AtPredicateStop => s.(worker := if s.isWorking then Waiting else Unlocking)
    case Waiting => s.(mutex := Nobody, worker := Asleep)
    case Asleep => s
    case Relocking => if s.mutex == Nobody then s.(mutex := TheWorker, worker := AtPredicate) else s
    case Unlocking => s.(mutex := Nobody, worker := AtTop)
    case Exited => s
  }

  /** A sleeping thread may wake for no reason; it then evaluates the predicate again. */
  function SpuriousWake<T>(s: System<T>): System<T> {
    if s.worker == Asleep then s.(worker := Relocking) else s
  }

  // ---------------------------------------------------------------- the others

  function Notify<T>(s: System<T>): System<T> {
    SpuriousWake(s)
  }

  /** add_task_to: push (whether accepted or not), then lock, notify and unlock. */
  function AddTaskStep<T>(s: System<T>): System<T>
    requires Ready(s)
  {
    match s.producer
    case Quiet =>
      if s.q.p.PIdle? then s
      else
        var r := ProducerStep(s.q);
        s.(q := r, producer := if r.p.PIdle? then MustNotify else Quiet)
    case MustNotify => if s.mutex == Nobody then s.(mutex := TheProducer, producer := Holding) else s
    case Holding => Notify(s).(producer := Notified)
    case Notified => s.(mutex := Nobody, producer := Quiet)
  }

  function BeginAddTask<T>(s: System<T>, task: T): System<T>
    requires Ready(s) && s.producer == Quiet && s.q.p.PIdle?
  {
    s.(q := StartPush(s.q, task))
  }

  /** ~ThreadPool: clear is_working_ without the lock, then lock, notify and unlock. */
  function DestructorStep<T>(s: System<T>): System<T> {
    match s.destructor
    case Quiet => if s.isWorking then s.(isWorking := false, destructor := MustNotify) else s
    case MustNotify => if s.mutex == Nobody then s.(mutex := TheDestructor, destructor := Holding) else s
    case Holding => Notify(s).(destructor := Notified)
    case Notified => s.(mutex := Nobody, destructor := Quiet)
  }

  /** spin_once: notifies without being bound to. */
  function SpinnerStep<T>(s: System<T>): System<T> {
    match s.spinner
    case Quiet => s.(spinner := MustNotify)
    case MustNotify => if s.mutex == Nobody then s.(mutex := TheSpinner, spinner := Holding) else s
    case Holding => Notify(s).(spinner := Notified)
    case Notified => s.(mutex := Nobody, spinner := Quiet)
  }

  datatype Actor = WorkerActs | ProducerActs | DestructorActs | SpinnerActs

  function Act<T>(s: System<T>, who: Actor): System<T>
    requires Ready(s)
  {
    match who
    case WorkerActs => WorkerStep(s)
    case ProducerActs => AddTaskStep(s)
    case DestructorActs => DestructorStep(s)
    case SpinnerActs => SpinnerStep(s)
  }

  ghost predicate Next<T(!new)>(s: System<T>, t: System<T>) {
    && Ready(s)
    && (|| (exists who :: t == Act(s, who))
        || t == SpuriousWake(s)
        || (s.producer == Quiet && s.q.p.PIdle? && exists task :: t == BeginAddTask(s, task)))
  }

  ghost predicate Trace<T(!new)>(tr: seq<System<T>>) {
    && |tr| > 0 && tr[0].q.capacity > 0 && |tr[0].q.buffer| == tr[0].q.capacity
    && tr[0] == Start(tr[0].q.capacity, tr[0].q.buffer)
    && forall i | 0 <= i < |tr| - 1 :: Next(tr[i], tr[i + 1])
  }

  // ---------------------------------------------------------------- invariant

  predicate Bound(pc: NotifierPc) {
    pc == MustNotify || pc == Holding
  }

  predicate HasLock(pc: NotifierPc) {
    pc == Holding || pc == Notified
  }

  predicate WorkerHasLock(w: WorkerPc) {
    w == AtPredicate || w.AtPredicateHead? || w == AtPredicateStop || w == Waiting || w == Unlocking
  }

  ghost predicate MutexInv<T>(s: System<T>) {
    && (s.mutex == TheWorker <==> WorkerHasLock(s.worker))
    && (s.mutex == TheProducer <==> HasLock(s.producer))
    && (s.mutex == TheDestructor <==> HasLock(s.destructor))
    && (s.mutex == TheSpinner <==> HasLock(s.spinner))
  }

  /** A tail loaded by size() stood for a number of pushes between the pops and the pushes so far. */
  ghost predicate LoadedTail<T>(s: System<T>, tail: nat, pushes: nat)
    requires s.q.capacity > 0
  {
    && tail == pushes % s.q.capacity
    && |s.q.popped| <= pushes <= |s.q.pushed| && pushes <= |s.q.popped| + s.q.capacity - 1
  }

  ghost predicate WorkerInv<T>(s: System<T>)
    requires s.q.capacity > 0
  {
    && (s.worker != Popping <==> s.q.c.CIdle?)
    && match s.worker
       case AtDrainSizeHead(t, n) => LoadedTail(s, t, n)
       case AtIdleSizeHead(t, n) => LoadedTail(s, t, n)
       case AtPredicateHead(t, n) => LoadedTail(s, t, n)
       case _ => true
  }

  ghost predicate HasWork<T>(s: System<T>) {
    |s.q.popped| < |s.q.pushed|
  }

  /** Once the predicate has been found false, whatever makes it true owes a notification. */
  ghost predicate NoLostWakeup<T>(s: System<T>) {
    match s.worker
    case AtPredicateHead(_, n) => n < |s.q.pushed| ==> Bound(s.producer)
    case AtPredicateStop => HasWork(s) ==> Bound(s.producer)
    case Waiting => (HasWork(s) ==> Bound(s.producer)) && (!s.isWorking ==> Bound(s.destructor))
    case Asleep => (HasWork(s) ==> Bound(s.producer)) && (!s.isWorking ==> Bound(s.destructor))
    case _ => true
  }

  ghost predicate Inv<T>(s: System<T>) {
    && SpscQueue.Inv(s.q) && Ready(s)
    && (s.producer != Quiet ==> s.q.p.PIdle?)
    && (s.destructor != Quiet ==> !s.isWorking)
    && MutexInv(s) && WorkerInv(s) && NoLostWakeup(s)
  }

  lemma SizeIsZeroIff<T>(s: System<T>, tail: nat, pushes: nat)
    requires SpscQueue.Inv(s.q) && Ready(s) && LoadedTail(s, tail, pushes)
    ensures LoadedSize(s, tail) == 0 <==> pushes == |s.q.popped|
  {
    SizeCounts(s.q.capacity, pushes, |s.q.popped|);
  }

  lemma LoopKeepsInv<T>(s: System<T>)
    requires Inv(s) && !WorkerHasLock(s.worker) && s.worker != Popping && !s.worker.AtDrainSizeHead?
    ensures Inv(WorkerStep(s))
  {
    if s.worker.AtIdleSizeHead? {
      SizeIsZeroIff(s, s.worker.tail, s.worker.pushes);
    }
  }

  lemma PopKeepsInv<T>(s: System<T>)
    requires Inv(s) && (s.worker == Popping || s.worker.AtDrainSizeHead?)
    ensures Inv(WorkerStep(s))
  {
    ConsumerKeepsInv(s.q);
  }

  lemma LockedKeepsInv<T>(s: System<T>)
    requires Inv(s) && WorkerHasLock(s.worker)
    ensures Inv(WorkerStep(s))
  {
    if s.worker.AtPredicateHead? {
      SizeIsZeroIff(s, s.worker.tail, s.worker.pushes);
    }
  }

  lemma WorkerKeepsInv<T>(s: System<T>)
    requires Inv(s)
    ensures Inv(WorkerStep(s))
  {
    if WorkerHasLock(s.worker) {
      LockedKeepsInv(s);
    } else if s.worker == Popping || s.worker.AtDrainSizeHead? {
      PopKeepsInv(s);
    } else {
      LoopKeepsInv(s);
    }
  }

  lemma PushStepKeepsInv<T>(s: System<T>)
    requires Inv(s) && s.producer == Quiet && !s.q.p.PIdle?
    ensures Inv(AddTaskStep(s))
  {
    ProducerKeepsInv(s.q);
  }

  lemma AddTaskStepKeepsInv<T>(s: System<T>)
    requires Inv(s)
    ensures Inv(AddTaskStep(s))
  {
    if s.producer == Quiet && !s.q.p.PIdle? {
      PushStepKeepsInv(s);
    } else if s.producer == Holding {
      WakingKeepsInv(s);
    }
  }

  lemma DestructorKeepsInv<T>(s: System<T>)
    requires Inv(s)
    ensures Inv(DestructorStep(s))
  {
  }

  lemma WakingKeepsInv<T>(s: System<T>)
    requires Inv(s)
    ensures Inv(SpuriousWake(s))
  {
  }

  lemma SpinnerKeepsInv<T>(s: System<T>)
    requires Inv(s)
    ensures Inv(SpinnerStep(s))
  {
    if s.spinner == Holding {
      WakingKeepsInv(s);
    }
  }

  lemma BeginAddTaskKeepsInv<T>(s: System<T>, task: T)
    requires Inv(s) && s.producer == Quiet && s.q.p.PIdle?
    ensures Inv(BeginAddTask(s, task))
  {
  }

  // ---------------------------------------------------------------- whole runs

  lemma {:induction false} TraceKeepsInv<T(!new)>(tr: seq<System<T>>, i: nat)
    requires Trace(tr) && i < |tr|
    ensures Inv(tr[i])
  {
    if i > 0 {
      TraceKeepsInv(tr, i - 1);
      var s, t := tr[i - 1], tr[i];
      assert Next(tr[i - 1], tr[i - 1 + 1]);
      if who :| t == Act(s, who) {
        match who {
          case WorkerActs => WorkerKeepsInv(s);
          case ProducerActs => AddTaskStepKeepsInv(s);
          case DestructorActs => DestructorKeepsInv(s);
          case SpinnerActs => SpinnerKeepsInv(s);
        }
      } else if t == SpuriousWake(s) {
        WakingKeepsInv(s);
      } else {
        var task :| t == BeginAddTask(s, task);
        BeginAddTaskKeepsInv(s, task);
      }
    }
  }

  /**
   * In every reachable state, a worker asleep although its queue is not empty or shutdown was
   * requested will still be notified: the producer that pushed, or the destructor that cleared
   * is_working_, has not sent its notification yet.
   */
  lemma AsleepWithWorkIsOwedANotify<T(!new)>(tr: seq<System<T>>, i: nat)
    requires Trace(tr) && i < |tr| && tr[i].worker == Asleep
    ensures HasWork(tr[i]) ==> Bound(tr[i].producer)
    ensures !tr[i].isWorking ==> Bound(tr[i].destructor)
  {
    TraceKeepsInv(tr, i);
  }

  /** The state after a schedule, whatever each actor can do when its turn comes. */
  function RunSchedule<T>(s: System<T>, schedule: seq<Actor>): System<T>
    requires Ready(s)
    decreases |schedule|
  {
    if schedule == [] then s
    else
      var t := Act(s, schedule[0]);
      if Ready(t) then RunSchedule(t, schedule[1..]) else t
  }

  lemma LockAndNotify<T>(s: System<T>, who: Actor)
    requires Ready(s) && s.worker == Asleep && s.mutex == Nobody
    requires (who == ProducerActs && s.producer == MustNotify) || (who == DestructorActs && s.destructor == MustNotify)
    ensures RunSchedule(s, [who, who]).worker == Relocking
  {
    var t := Act(s, who);
    assert [who, who][1..] == [who] && [who][1..] == [];
    assert RunSchedule(s, [who, who]) == RunSchedule(t, [who]);
    assert RunSchedule(t, [who]) == RunSchedule(Act(t, who), []);
  }

  /** Whether the thread inside the critical section has already sent its notification. */
  predicate HolderHasNotified<T>(s: System<T>) {
    match s.mutex
    case TheProducer => s.producer == Notified
    case TheDestructor => s.destructor == Notified
    case TheSpinner => s.spinner == Notified
    case _ => false
  }

  function Holder(mutex: Owner): Actor {
    match mutex
    case TheProducer => ProducerActs
    case TheDestructor => DestructorActs
    case _ => SpinnerActs
  }

  /** The notification owed can always be delivered: at most three turns of notifiers wake the worker. */
  lemma OwedNotifyCanBeDelivered<T>(s: System<T>) returns (schedule: seq<Actor>)
    requires Inv(s) && s.worker == Asleep && (HasWork(s) || !s.isWorking)
    ensures |schedule| <= 3 && WorkerActs !in schedule
    ensures RunSchedule(s, schedule).worker == Relocking
  {
    var who := if HasWork(s) then ProducerActs else DestructorActs;
    if s.mutex == Nobody {
      schedule := [who, who];
      LockAndNotify(s, who);
    } else {
      var holder := Holder(s.mutex);
      var t := Act(s, holder);
      if HolderHasNotified(s) {
        schedule := [holder, who, who];
        assert schedule[1..] == [who, who];
        LockAndNotify(t, who);
      } else {
        schedule := [holder];
        assert RunSchedule(s, schedule) == RunSchedule(t, []);
      }
    }
  }

  // ---------------------------------------------------------------- a worker that is awake works

  /** Neither asleep nor bound to fall asleep, and the pool is not shutting down. */
  ghost predicate Awake<T>(s: System<T>) {
    && s.isWorking && s.worker != Exited && s.worker != Asleep && s.worker != Waiting && s.worker != AtPredicateStop
    && (s.worker.AtPredicateHead? ==> s.worker.pushes > |s.q.popped|)
    && (s.mutex == Nobody || s.mutex == TheWorker)
  }

  /** Steps of the worker until it has popped a task, if one is queued. */
  ghost function StepsLeft<T>(s: System<T>): nat {
    match s.worker
    case Popping => (match s.q.c case CRead(_, _) => 1 case CFound(_) => 2 case _ => 3)
    case AtDrainSizeHead(_, n) => if n > |s.q.popped| then 4 else 10
    case AtDrainSize => 5
    case AtInner => 6
    case Running => 7
    case AtTop => 7
    case Unlocking => 8
    case AtIdleSizeHead(_, n) => if n > |s.q.popped| then 8 else 13
    case AtIdleSize => 9
    case AtPredicateHead(_, _) => 9
    case AtPredicate => 10
    case Locking => 11
    case Relocking => 11
    case AtStopCheck => 12
    case _ => 0
  }

  lemma PopAdvances<T>(s: System<T>)
    requires Inv(s) && HasWork(s) && Awake(s) && (s.worker == Popping || s.worker.AtDrainSizeHead?)
    ensures var t := WorkerStep(s);
            if s.worker == Popping && s.q.c.CRead?
            then t.q.popped == s.q.popped + [s.q.pushed[|s.q.popped|]] && t.worker == Running
            else t.q.popped == s.q.popped && HasWork(t) && Awake(t) && StepsLeft(t) < StepsLeft(s)
  {
    ConsumerKeepsInv(s.q);
    if s.worker.AtDrainSizeHead? {
      SizeIsZeroIff(s, s.worker.tail, s.worker.pushes);
    }
  }

  lemma LoopAdvances<T>(s: System<T>)
    requires Inv(s) && HasWork(s) && Awake(s) && s.worker != Popping && !s.worker.AtDrainSizeHead?
    ensures var t := WorkerStep(s);
            t.q.popped == s.q.popped && HasWork(t) && Awake(t) && StepsLeft(t) < StepsLeft(s)
  {
    if s.worker.AtIdleSizeHead? || s.worker.AtPredicateHead? {
      SizeIsZeroIff(s, s.worker.tail, s.worker.pushes);
    }
  }

  lemma WorkerAdvances<T>(s: System<T>)
    requires Inv(s) && HasWork(s) && Awake(s)
    ensures var t := WorkerStep(s);
            && Inv(t) && t.q.pushed == s.q.pushed
            && if s.worker == Popping && s.q.c.CRead?
               then t.q.popped == s.q.popped + [s.q.pushed[|s.q.popped|]] && t.worker == Running && StepsLeft(s) == 1
               else t.q.popped == s.q.popped && HasWork(t) && Awake(t) && StepsLeft(t) < StepsLeft(s)
  {
    WorkerKeepsInv(s);
    if s.worker == Popping || s.worker.AtDrainSizeHead? {
      PopAdvances(s);
    } else {
      LoopAdvances(s);
    }
  }

  /** Some number of steps of the worker alone. */
  ghost function Alone<T>(s: System<T>, steps: nat): (t: System<T>)
    requires Inv(s)
    ensures Inv(t)
    decreases steps
  {
    if steps == 0 then s
    else
      WorkerKeepsInv(s);
      Alone(WorkerStep(s), steps - 1)
  }

  lemma AloneNext<T>(s: System<T>, steps: nat)
    requires Inv(s)
    ensures Inv(WorkerStep(s)) && Alone(s, steps + 1) == Alone(WorkerStep(s), steps)
  {
    WorkerKeepsInv(s);
  }

  lemma StepsAreFew<T>(s: System<T>)
    requires Awake(s)
    ensures 1 <= StepsLeft(s) <= 13
  {
  }

  /** An awake worker whose queue is not empty pops the oldest task within thirteen steps of its own. */
  lemma {:induction false} AwakeWorkerPops<T>(s: System<T>) returns (steps: nat)
    requires Inv(s) && HasWork(s) && Awake(s)
    ensures 1 <= steps <= StepsLeft(s) <= 13
    ensures Alone(s, steps).q.popped == s.q.popped + [s.q.pushed[|s.q.popped|]]
    ensures Alone(s, steps).worker == Running
    decreases StepsLeft(s)
  {
    StepsAreFew(s);
    WorkerAdvances(s);
    var rest: nat := 0;
    if !(s.worker == Popping && s.q.c.CRead?) {
      rest := AwakeWorkerPops(WorkerStep(s));
    }
    AloneNext(s, rest);
    steps := rest + 1;
  }

  lemma ActKeepsInv<T>(s: System<T>, who: Actor)
    requires Inv(s)
    ensures Inv(Act(s, who))
  {
    match who {
      case WorkerActs => WorkerKeepsInv(s);
      case ProducerActs => AddTaskStepKeepsInv(s);
      case DestructorActs => DestructorKeepsInv(s);
      case SpinnerActs => SpinnerKeepsInv(s);
    }
  }

  lemma ScheduleNext<T>(s: System<T>, who: Actor, rest: seq<Actor>)
    requires Inv(s)
    ensures Inv(Act(s, who)) && RunSchedule(s, [who] + rest) == RunSchedule(Act(s, who), rest)
  {
    ActKeepsInv(s, who);
    assert ([who] + rest)[1..] == rest;
  }

  /** What is left to do for one who holds the mutex: notify, and let go of it. */
  ghost predicate Woken<T>(s: System<T>, t: System<T>) {
    Inv(t) && t.worker == Relocking && t.mutex == Nobody && t.q == s.q && t.isWorking == s.isWorking
  }

  lemma HolderWakes<T>(s: System<T>, who: Actor)
    requires Inv(s) && s.worker == Asleep
    requires (who == ProducerActs && s.producer == Holding) || (who == SpinnerActs && s.spinner == Holding)
    ensures Woken(s, RunSchedule(s, [who, who]))
  {
    assert [who, who] == [who] + [who] && [who] == [who] + [];
    ScheduleNext(s, who, [who]);
    ScheduleNext(Act(s, who), who, []);
  }

  lemma ProducerWakes<T>(s: System<T>)
    requires Inv(s) && s.worker == Asleep && s.mutex == Nobody && s.producer == MustNotify
    ensures Woken(s, RunSchedule(s, [ProducerActs, ProducerActs, ProducerActs]))
  {
    ScheduleNext(s, ProducerActs, [ProducerActs, ProducerActs]);
    HolderWakes(Act(s, ProducerActs), ProducerActs);
    assert [ProducerActs] + [ProducerActs, ProducerActs] == [ProducerActs, ProducerActs, ProducerActs];
  }

  lemma SleeperIsWoken<T>(s: System<T>) returns (schedule: seq<Actor>)
    requires Inv(s) && s.worker == Asleep && HasWork(s) && s.isWorking
    ensures |schedule| <= 4 && WorkerActs !in schedule && Woken(s, RunSchedule(s, schedule))
  {
    if s.producer == Holding {
      schedule := [ProducerActs, ProducerActs];
      HolderWakes(s, ProducerActs);
    } else if s.spinner == Holding {
      schedule := [SpinnerActs, SpinnerActs];
      HolderWakes(s, SpinnerActs);
    } else if s.spinner == Notified {
      schedule := [SpinnerActs] + [ProducerActs, ProducerActs, ProducerActs];
      ScheduleNext(s, SpinnerActs, [ProducerActs, ProducerActs, ProducerActs]);
      ProducerWakes(Act(s, SpinnerActs));
    } else {
      schedule := [ProducerActs, ProducerActs, ProducerActs];
      ProducerWakes(s);
    }
  }

  /**
   * A worker asleep on a queue that is not empty, with the pool running: at most four turns of
   * those who notify and eleven of its own, and it has popped the oldest task.
   */
  lemma SleeperWithWorkPops<T>(s: System<T>) returns (schedule: seq<Actor>, steps: nat)
    requires Inv(s) && s.worker == Asleep && HasWork(s) && s.isWorking
    ensures |schedule| <= 4 && WorkerActs !in schedule && Inv(RunSchedule(s, schedule)) && steps <= 11
    ensures Alone(RunSchedule(s, schedule), steps).q.popped == s.q.popped + [s.q.pushed[|s.q.popped|]]
  {
    schedule := SleeperIsWoken(s);
    steps := AwakeWorkerPops(RunSchedule(s, schedule));
  }

  // ---------------------------------------------------------------- shutdown

  /** Steps until a worker that is up finds out that the pool is shutting down. */
  function ExitLeft<T>(s: System<T>): nat {
    match s.worker
    case Exited => 0
    case AtTop => 1
    case AtStopCheck => 1
    case Unlocking => 2
    case AtIdleSizeHead(_, _) => 2
    case AtIdleSize => 3
    case AtPredicateStop => 3
    case AtInner => 4
    case AtPredicateHead(_, _) => 4
    case Running => 5
    case AtPredicate => 5
    case Locking => 6
    case Relocking => 6
    case Popping => (match s.q.c case CRead(_, _) => 6 case CFound(_) => 7 case _ => 8)
    case AtDrainSizeHead(_, _) => 9
    case AtDrainSize => 10
    case _ => 11
  }

  predicate Stopping<T>(s: System<T>) {
    && !s.isWorking && s.worker != Asleep && s.worker != Waiting
    && (s.mutex == Nobody || s.mutex == TheWorker)
  }

  /** Whether a pop is still to come. */
  function PopsLeft<T>(s: System<T>): nat {
    if s.worker == Popping || s.worker == AtDrainSize || s.worker.AtDrainSizeHead? then 1 else 0
  }

  ghost predicate ExitIsNearer<T>(s: System<T>, t: System<T>) {
    Stopping(t) && ExitLeft(t) < ExitLeft(s) && |t.q.popped| + PopsLeft(t) <= |s.q.popped| + PopsLeft(s)
  }

  lemma StopInPop<T>(s: System<T>)
    requires Inv(s) && Stopping(s) && s.worker == Popping
    ensures ExitIsNearer(s, WorkerStep(s))
  {
    ConsumerKeepsInv(s.q);
  }

  lemma StopInLoop<T>(s: System<T>)
    requires Inv(s) && Stopping(s) && s.worker != Exited && s.worker != Popping
    ensures ExitIsNearer(s, WorkerStep(s))
  {
  }

  lemma ExitIsNear<T>(s: System<T>)
    requires Stopping(s)
    ensures ExitLeft(s) <= 10 && (s.worker != Exited ==> ExitLeft(s) > 0)
  {
  }

  /**
   * Once is_working_ is cleared every step of a worker that is up brings its exit nearer, which is
   * ten steps away at most, and it pops at most one more task: what is queued behind is never run.
   */
  lemma StopAdvances<T>(s: System<T>)
    requires Inv(s) && Stopping(s) && s.worker != Exited
    ensures var t := WorkerStep(s);
            && Inv(t) && Stopping(t) && ExitLeft(t) < ExitLeft(s) <= 10
            && |t.q.popped| + PopsLeft(t) <= |s.q.popped| + PopsLeft(s)
  {
    WorkerKeepsInv(s);
    ExitIsNear(s);
    if s.worker == Popping {
      StopInPop(s);
    } else {
      StopInLoop(s);
    }
  }
}
