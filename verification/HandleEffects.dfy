/** What an operation on a handle has achieved by the time it ends, whatever others did meanwhile. */
module HandleEffects {
  import opened SharedHandles
  import opened HandleRuns

  // ---------------------------------------------------------------- what others leave alone

  ghost predicate LeavesAlone(s: State, u: State, t: int)
    requires t in s.jobs
  {
    SameJob(s, u, t) && forall h | h in Touches(s.jobs[t]) :: SameHandle(s, u, h)
  }

  lemma StepIsOwn(s: State, v: int, h: int)
    requires Sane(s, v) && h !in Writes(s.jobs[v])
    ensures SameHandle(s, Step(s, v), h)
  {
  }

  lemma StepIsOwnJob(s: State, v: int, t: int)
    requires Sane(s, v) && t != v
    ensures SameJob(s, Step(s, v), t)
  {
  }

  lemma OthersStep(s: State, v: int, t: int)
    requires HandleRuns.Inv(s) && Sane(s, v) && t in s.jobs && t != v
    ensures LeavesAlone(s, Step(s, v), t)
  {
    assert Exclusive(s, v, t);
    StepIsOwnJob(s, v, t);
    forall h | h in Touches(s.jobs[t])
      ensures SameHandle(s, Step(s, v), h)
    {
      StepIsOwn(s, v, h);
    }
  }

  lemma BeginLeavesAlone(s: State, v: int, h: int, goal: Goal, t: int)
    requires MayBegin(s, v, h, goal) && t in s.jobs
    ensures LeavesAlone(s, Begin(s, v, h, goal), t)
  {
  }

  lemma ClearLeavesAlone(s: State, u: State, h: int, t: int)
    requires Clear(s, h) && t in s.jobs && u.jobs == s.jobs && u.handles - {h} == s.handles - {h}
    ensures LeavesAlone(s, u, t)
  {
    assert h !in Touches(s.jobs[t]);
    forall k | k in Touches(s.jobs[t])
      ensures SameHandle(s, u, k)
    {
      assert k in u.handles <==> k in u.handles - {h};
      assert k in s.handles <==> k in s.handles - {h};
      assert k in s.handles ==> (u.handles - {h})[k] == (s.handles - {h})[k];
    }
  }

  /** Between two of its own steps nothing an operation works on is changed. */
  lemma NextIsOwnOrElsewhere(s: State, u: State, t: int)
    requires HandleRuns.Inv(s) && Next(s, u) && t in s.jobs
    ensures (Sane(s, t) && u == Step(s, t)) || LeavesAlone(s, u, t)
  {
    if v :| Sane(s, v) && u == Step(s, v) {
      if v != t {
        OthersStep(s, v, t);
      }
    } else if v, h, goal :| MayBegin(s, v, h, goal) && u == Begin(s, v, h, goal) {
      BeginLeavesAlone(s, v, h, goal, t);
    } else {
      HandlesComeAndGo(s, u, t);
    }
  }

  lemma HandlesComeAndGo(s: State, u: State, t: int)
    requires t in s.jobs
    requires (exists h, c :: h !in s.handles && Clear(s, h) && c >= 0 && c !in s.blocks && u == Created(s, h, c))
          || (exists h :: h !in s.handles && Clear(s, h) && u == s.(handles := s.handles[h := EMPTY]))
          || (exists h :: h in s.handles && Clear(s, h) && s.handles[h].raw == NULL
                && u == s.(handles := s.handles - {h}))
    ensures LeavesAlone(s, u, t)
  {
    if h, c :| h !in s.handles && Clear(s, h) && c >= 0 && c !in s.blocks && u == Created(s, h, c) {
      ClearLeavesAlone(s, u, h, t);
    } else if h :| h !in s.handles && Clear(s, h) && u == s.(handles := s.handles[h := EMPTY]) {
      ClearLeavesAlone(s, u, h, t);
    } else {
      var h :| h in s.handles && Clear(s, h) && s.handles[h].raw == NULL && u == s.(handles := s.handles - {h});
      ClearLeavesAlone(s, u, h, t);
    }
  }

  // ---------------------------------------------------------------- what an operation achieves

  /** What the handles are to be in the end; v is what the source referred to when it began. */
  predicate Achieved(u: State, h: int, goal: Goal, v: Handle) {
    match goal
    case Forget => h !in u.handles
    case Empty => h in u.handles && u.handles[h] == EMPTY
    case Copy(rhs) => h in u.handles && u.handles[h] == v && rhs in u.handles && u.handles[rhs] == v
    case Move(rhs) => h in u.handles && u.handles[h] == v && rhs in u.handles && u.handles[rhs] == EMPTY
  }

  /** On the way there the source still refers to v, or has handed it over. */
  predicate OnTheWay(s: State, t: int, h: int, goal: Goal, v: Handle) {
    && t in s.jobs && s.jobs[t].h == h && s.jobs[t].goal == goal
    && match goal
       case Forget => true
       case Empty => true
       case Copy(rhs) =>
         && h in s.handles && rhs in s.handles && s.handles[rhs] == v
         && (HasCopied(s.jobs[t].stage) ==> s.handles[h] == v)
       case Move(rhs) =>
         && h in s.handles && rhs in s.handles
         && (s.jobs[t].stage != TakeUnlock ==> s.handles[rhs] == v)
         && (HasCopied(s.jobs[t].stage) ==> s.handles[h] == v)
  }

  predicate HasCopied(stage: Stage) {
    stage == ShareAdd || stage == ShareUnlock
    || stage == TakeAdd || stage == TakeSub || stage == TakeClear || stage == TakeUnlock
  }

  lemma OwnStepAchieves(s: State, t: int, h: int, goal: Goal, v: Handle)
    requires HandleRuns.Inv(s) && Sane(s, t) && OnTheWay(s, t, h, goal, v)
    ensures if t in Step(s, t).jobs then OnTheWay(Step(s, t), t, h, goal, v) else Achieved(Step(s, t), h, goal, v)
  {
    assert JobInv(s, t);
    if ChangesHandle(s.jobs[t].stage) {
      ChangeAchieves(s, t, h, goal, v);
    } else if s.jobs[t].stage == ShareUnlock {
      ShareAchieves(s, t, h, goal, v);
    } else if s.jobs[t].stage == TakeUnlock {
      TakeAchieves(s, t, h, goal, v);
    } else if Ends(s.jobs[t].stage) {
      DropAchieves(s, t, h, goal, v);
    }
  }

  lemma ChangeAchieves(s: State, t: int, h: int, goal: Goal, v: Handle)
    requires Sane(s, t) && JobInv(s, t) && OnTheWay(s, t, h, goal, v) && ChangesHandle(s.jobs[t].stage)
    ensures OnTheWay(Step(s, t), t, h, goal, v)
  {
  }

  lemma ShareAchieves(s: State, t: int, h: int, goal: Goal, v: Handle)
    requires Sane(s, t) && JobInv(s, t) && OnTheWay(s, t, h, goal, v) && s.jobs[t].stage == ShareUnlock
    ensures t !in Step(s, t).jobs && Achieved(Step(s, t), h, goal, v)
  {
  }

  lemma TakeAchieves(s: State, t: int, h: int, goal: Goal, v: Handle)
    requires Sane(s, t) && JobInv(s, t) && OnTheWay(s, t, h, goal, v) && s.jobs[t].stage == TakeUnlock
    ensures t !in Step(s, t).jobs && Achieved(Step(s, t), h, goal, v)
  {
  }

  /** The old content given up, the operation is over or goes on to the source. */
  lemma DropAchieves(s: State, t: int, h: int, goal: Goal, v: Handle)
    requires Sane(s, t) && JobInv(s, t) && OnTheWay(s, t, h, goal, v)
    requires s.jobs[t].stage == DropUnlock || s.jobs[t].stage == ClearFreed
    ensures if t in Step(s, t).jobs then OnTheWay(Step(s, t), t, h, goal, v) else Achieved(Step(s, t), h, goal, v)
  {
  }

  lemma NextAchieves(s: State, u: State, t: int, h: int, goal: Goal, v: Handle)
    requires HandleRuns.Inv(s) && Next(s, u) && OnTheWay(s, t, h, goal, v)
    ensures if t in u.jobs then OnTheWay(u, t, h, goal, v) else Achieved(u, h, goal, v)
  {
    NextIsOwnOrElsewhere(s, u, t);
    if Sane(s, t) && u == Step(s, t) {
      OwnStepAchieves(s, t, h, goal, v);
    } else {
      assert h in Touches(s.jobs[t]) && SameHandle(s, u, h);
      if goal.Copy? || goal.Move? {
        assert goal.rhs in Touches(s.jobs[t]) && SameHandle(s, u, goal.rhs);
      }
    }
  }

  function Source(s: State, goal: Goal): Handle {
    if (goal.Copy? || goal.Move?) && goal.rhs in s.handles then s.handles[goal.rhs] else EMPTY
  }

  ghost predicate Working(tr: seq<State>, i: nat, j: nat, t: int)
    requires i <= j < |tr|
  {
    forall k | i < k <= j :: HasJob(tr, k, t)
  }

  predicate HasJob(tr: seq<State>, k: nat, t: int)
    requires k < |tr|
  {
    t in tr[k].jobs
  }

  /** What a run gives at each of its steps. */
  ghost predicate StepAt(tr: seq<State>, k: nat)
    requires k + 1 < |tr|
  {
    HandleRuns.Inv(tr[k]) && Next(tr[k], tr[k + 1])
  }

  lemma NextOfTrace(tr: seq<State>, k: nat)
    requires Trace(tr) && k + 1 < |tr|
    ensures StepAt(tr, k)
  {
    TraceKeepsInv(tr, k);
  }

  lemma BeginIsOnTheWay(s: State, t: int, h: int, goal: Goal)
    requires MayBegin(s, t, h, goal)
    ensures OnTheWay(Begin(s, t, h, goal), t, h, goal, Source(s, goal))
  {
  }

  lemma {:induction false} StaysOnTheWay(tr: seq<State>, i: nat, j: nat, t: int, h: int, goal: Goal)
    requires i < j < |tr| && MayBegin(tr[i], t, h, goal) && tr[i + 1] == Begin(tr[i], t, h, goal)
    requires (forall k | i < k < j :: StepAt(tr, k)) && Working(tr, i, j, t)
    ensures OnTheWay(tr[j], t, h, goal, Source(tr[i], goal))
    decreases j
  {
    if j == i + 1 {
      BeginIsOnTheWay(tr[i], t, h, goal);
    } else {
      StaysOnTheWay(tr, i, j - 1, t, h, goal);
      assert StepAt(tr, j - 1) && HasJob(tr, j, t);
      NextAchieves(tr[j - 1], tr[j], t, h, goal, Source(tr[i], goal));
    }
  }

  /**
   * When an operation begun at i ends, a copy refers to what its source referred to at i, and so
   * does the source; a move the same, and its source is empty; a reset handle is empty and a
   * destroyed one gone.
   */
  lemma OperationsTakeEffect(tr: seq<State>, i: nat, j: nat, t: int, h: int, goal: Goal)
    requires Trace(tr) && i < j < |tr| - 1 && MayBegin(tr[i], t, h, goal) && tr[i + 1] == Begin(tr[i], t, h, goal)
    requires Working(tr, i, j, t) && t !in tr[j + 1].jobs
    ensures Achieved(tr[j + 1], h, goal, Source(tr[i], goal))
  {
    forall k | i < k <= j
      ensures StepAt(tr, k)
    {
      NextOfTrace(tr, k);
    }
    StaysOnTheWay(tr, i, j, t, h, goal);
    assert StepAt(tr, j);
    NextAchieves(tr[j], tr[j + 1], t, h, goal, Source(tr[i], goal));
  }

  // ---------------------------------------------------------------- and that it ends

  /** Steps of its own an operation has before it, at most. */
  function StepsLeft(stage: Stage): nat {
    match stage
    case DropLock => 15
    case DropSub => 14
    case DropTest => 13
    case FreePayload => 12
    case FreeCounter => 11
    case UnlockFreed => 10
    case FreeMutex => 9
    case ClearFreed => 8
    case DropClear => 9
    case DropUnlock => 8
    case ShareLock => 4
    case ShareCopy => 3
    case ShareAdd => 2
    case ShareUnlock => 1
    case TakeLock => 6
    case TakeCopy => 5
    case TakeAdd => 4
    case TakeSub => 3
    case TakeClear => 2
    case TakeUnlock => 1
  }

  predicate Blocked(s: State, t: int)
    requires Sane(s, t)
  {
    Waits(s.jobs[t].stage) && s.blocks[s.jobs[t].c].holder != NOBODY
  }

  /** An operation not held up at a mutex comes nearer its end with each step, and takes fifteen at most. */
  lemma StepsComeToAnEnd(s: State, t: int)
    requires HandleRuns.Inv(s) && t in s.jobs
    ensures Sane(s, t) && StepsLeft(s.jobs[t].stage) <= 15
    ensures if Blocked(s, t) then Step(s, t) == s
            else t !in Step(s, t).jobs || StepsLeft(Step(s, t).jobs[t].stage) < StepsLeft(s.jobs[t].stage)
  {
    JobIsReady(s, t);
    var j := s.jobs[t];
    if !Ends(j.stage) && !Blocked(s, t) {
      assert Step(s, t).jobs[t].stage == StageAfter(s.blocks[j.c], j.stage);
      StageAfterIsNearer(s.blocks[j.c], j.stage);
    } else if Ends(j.stage) {
      EndIsNearer(s, t);
    }
  }

  lemma StageAfterIsNearer(b: Block, stage: Stage)
    requires !Ends(stage)
    ensures StepsLeft(StageAfter(b, stage)) < StepsLeft(stage) <= 15
  {
  }

  lemma EndIsNearer(s: State, t: int)
    requires Sane(s, t) && Ends(s.jobs[t].stage)
    ensures t !in Step(s, t).jobs || StepsLeft(Step(s, t).jobs[t].stage) < StepsLeft(s.jobs[t].stage)
  {
  }

  /** Operations never hold each other up for good: if any is under way, one of them can go on. */
  lemma NoDeadlock(tr: seq<State>, i: nat, v: int) returns (t: int)
    requires Trace(tr) && i < |tr| && v in tr[i].jobs
    ensures t in tr[i].jobs && Sane(tr[i], t) && !Blocked(tr[i], t)
  {
    TraceKeepsInv(tr, i);
    var s := tr[i];
    t := v;
    JobIsReady(s, t);
    if Blocked(s, t) {
      var c := s.jobs[t].c;
      assert BlockInv(s, c);
      t := s.blocks[c].holder;
      JobIsReady(s, t);
    }
  }
}
