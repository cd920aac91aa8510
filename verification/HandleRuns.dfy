/**
 * Operations on reference-counted handles as processes interleave them: each lock, load, store,
 * unlock and release of memory is a step of its own, and between any two steps of one operation
 * other processes may do any steps of theirs.
 */
module HandleRuns {
  import opened SharedHandles

  const NOBODY: int := -1

  /**
   * A control block. `holder` is the process that holds its mutex; `freer` the one that has seen
   * the count drop to zero and let the mutex go, but has not yet done with the block.
   */
  datatype Block = Block(
    count: int, payloadFrees: nat, counterFrees: nat, mutexFrees: nat, holder: int, freer: int)

  /** What is to become of the handle: gone, empty, a copy of another, or another's content. */
  datatype Goal = Forget | Empty | Copy(rhs: int) | Move(rhs: int)

  /**
   * Where an operation has got to: giving up what the handle refers to, copying, or taking over.
   * The test for zero after TakeSub is left out because it never succeeds (MoveDoesNotFree).
   */
  datatype Stage =
    | DropLock | DropSub | DropTest | DropClear | DropUnlock
    | FreePayload | FreeCounter | UnlockFreed | FreeMutex | ClearFreed
    | ShareLock | ShareCopy | ShareAdd | ShareUnlock
    | TakeLock | TakeCopy | TakeAdd | TakeSub | TakeClear | TakeUnlock

  /** A process at work on handle h; `c` is the block its current steps are about. */
  datatype Job = Job(stage: Stage, h: int, c: int, goal: Goal)

  datatype State = State(handles: map<int, Handle>, blocks: map<int, Block>, jobs: map<int, Job>)

  const START: State := State(map[], map[], map[])

  function Full(c: int): Handle {
    Handle(c, c, c)
  }

  // ---------------------------------------------------------------- steps

  predicate Waits(stage: Stage) {
    stage == DropLock || stage == ShareLock || stage == TakeLock
  }

  predicate Sharing(stage: Stage) {
    stage == ShareLock || stage == ShareCopy || stage == ShareAdd || stage == ShareUnlock
  }

  predicate Taking(stage: Stage) {
    || stage == TakeLock || stage == TakeCopy || stage == TakeAdd
    || stage == TakeSub || stage == TakeClear || stage == TakeUnlock
  }

  /** Steps on the count, on the memory of the parts, and the unlocking of a mutex about to be freed. */
  predicate ChangesBlock(stage: Stage) {
    || stage == DropSub || stage == DropTest || stage == FreePayload || stage == FreeCounter
    || stage == UnlockFreed || stage == ShareAdd || stage == TakeAdd || stage == TakeSub
  }

  predicate ChangesHandle(stage: Stage) {
    stage == DropClear || stage == FreeMutex || stage == ShareCopy || stage == TakeCopy || stage == TakeClear
  }

  function StageAfter(b: Block, stage: Stage): Stage {
    match stage
    case DropLock => DropSub
    case DropSub => DropTest
    case DropTest => if b.count == 0 then FreePayload else DropClear
    case DropClear => DropUnlock
    case FreePayload => FreeCounter
    case FreeCounter => UnlockFreed
    case UnlockFreed => FreeMutex
    case FreeMutex => ClearFreed
    case ShareLock => ShareCopy
    case ShareCopy => ShareAdd
    case ShareAdd => ShareUnlock
    case TakeLock => TakeCopy
    case TakeCopy => TakeAdd
    case TakeAdd => TakeSub
    case TakeSub => TakeClear
    case TakeClear => TakeUnlock
    case _ => stage
  }

  function BlockAfter(b: Block, stage: Stage, t: int): Block {
    match stage
    case DropLock => b.(holder := t)
    case ShareLock => b.(holder := t)
    case TakeLock => b.(holder := t)
    case DropSub => b.(count := b.count - 1)
    case TakeSub => b.(count := b.count - 1)
    case ShareAdd => b.(count := b.count + 1)
    case TakeAdd => b.(count := b.count + 1)
    case FreePayload => b.(payloadFrees := b.payloadFrees + 1)
    case FreeCounter => b.(counterFrees := b.counterFrees + 1)
    case UnlockFreed => b.(holder := NOBODY, freer := t)
    case FreeMutex => b.(mutexFrees := b.mutexFrees + 1)
    case ClearFreed => b.(freer := NOBODY)
    case DropUnlock => b.(holder := NOBODY)
    case ShareUnlock => b.(holder := NOBODY)
    case TakeUnlock => b.(holder := NOBODY)
    case _ => b
  }

  /** The handle a step changes, and what it becomes. */
  function ChangedHandle(j: Job): int {
    if j.stage == TakeClear && j.goal.Move? then j.goal.rhs else j.h
  }

  function HandleAfter(handles: map<int, Handle>, j: Job): Handle
    requires j.h in handles && (j.goal.Copy? || j.goal.Move? ==> j.goal.rhs in handles)
  {
    match j.stage
    case DropClear => handles[j.h].(raw := NULL, counter := NULL)
    case FreeMutex => handles[j.h].(mutex := NULL)
    case ShareCopy => if j.goal.Copy? then handles[j.goal.rhs] else handles[j.h]
    case TakeCopy => if j.goal.Move? then handles[j.goal.rhs] else handles[j.h]
    case TakeClear => EMPTY
    case _ => handles[j.h]
  }

  predicate Sane(s: State, t: int) {
    && t in s.jobs && s.jobs[t].c in s.blocks && s.jobs[t].h in s.handles
    && (s.jobs[t].goal.Copy? || s.jobs[t].goal.Move? ==> s.jobs[t].goal.rhs in s.handles)
  }

  /** The next step of process t; a mutex held by another keeps it waiting. */
  function Step(s: State, t: int): State
    requires Sane(s, t)
  {
    var j := s.jobs[t];
    var b := s.blocks[j.c];
    if Waits(j.stage) && b.holder != NOBODY then s
    else
      var blocks := s.blocks[j.c := BlockAfter(b, j.stage, t)];
      var jobs := s.jobs[t := j.(stage := StageAfter(b, j.stage))];
      if Waits(j.stage) || ChangesBlock(j.stage) then State(s.handles, blocks, jobs)
      else if ChangesHandle(j.stage) then
        State(s.handles[ChangedHandle(j) := HandleAfter(s.handles, j)], blocks, jobs)
      else if j.stage == ShareUnlock || j.stage == TakeUnlock then State(s.handles, blocks, s.jobs - {t})
      else Proceed(State(s.handles, blocks, s.jobs), t)
  }

  /** Once the handle refers to nothing any more the operation ends or goes on to the other handle's block. */
  function Proceed(s: State, t: int): State
    requires Sane(s, t)
  {
    var j := s.jobs[t];
    match j.goal
    case Forget => State(s.handles - {j.h}, s.blocks, s.jobs - {t})
    case Empty => State(s.handles[j.h := EMPTY], s.blocks, s.jobs - {t})
    case Copy(rhs) =>
      State(s.handles[j.h := EMPTY], s.blocks, s.jobs[t := Job(ShareLock, j.h, s.handles[rhs].raw, j.goal)])
    case Move(rhs) =>
      State(s.handles[j.h := EMPTY], s.blocks, s.jobs[t := Job(TakeLock, j.h, s.handles[rhs].raw, j.goal)])
  }

  // ---------------------------------------------------------------- starting operations

  /** The handles an operation may change, and those it only looks at. */
  function Writes(j: Job): set<int> {
    if j.goal.Move? then {j.h, j.goal.rhs} else {j.h}
  }

  function Touches(j: Job): set<int> {
    if j.goal.Move? || j.goal.Copy? then {j.h, j.goal.rhs} else {j.h}
  }

  /** What the source asks of its callers: no handle is changed while another operation is using it. */
  ghost predicate Clear(s: State, h: int) {
    forall t | t in s.jobs :: h !in Touches(s.jobs[t])
  }

  ghost predicate Readable(s: State, h: int) {
    forall t | t in s.jobs :: h !in Writes(s.jobs[t])
  }

  ghost predicate MayBegin(s: State, t: int, h: int, goal: Goal) {
    && t >= 0 && t !in s.jobs && h in s.handles && Clear(s, h)
    && match goal
       case Forget => s.handles[h].raw != NULL
       case Empty => s.handles[h].raw != NULL
       case Copy(rhs) => rhs in s.handles && rhs != h && s.handles[rhs].raw != NULL && Readable(s, rhs)
       case Move(rhs) => rhs in s.handles && rhs != h && s.handles[rhs].raw != NULL && Clear(s, rhs)
  }

  /** Destruction and reset of a handle, and the assignments, after their first tests. */
  ghost function Begin(s: State, t: int, h: int, goal: Goal): State
    requires MayBegin(s, t, h, goal)
  {
    var raw := s.handles[h].raw;
    var job :=
      if raw != NULL then Job(DropLock, h, raw, goal)
      else Job(if goal.Copy? then ShareLock else TakeLock, h, s.handles[goal.rhs].raw, goal);
    s.(jobs := s.jobs[t := job])
  }

  /** The steps of one process, and what a process may start or do at once with handles of its own. */
  ghost predicate Next(s: State, u: State) {
    || (exists t :: Sane(s, t) && u == Step(s, t))
    || (exists t, h, goal :: MayBegin(s, t, h, goal) && u == Begin(s, t, h, goal))
    || (exists h :: h !in s.handles && Clear(s, h) && u == s.(handles := s.handles[h := EMPTY]))
    || (exists h :: h in s.handles && Clear(s, h) && s.handles[h].raw == NULL && u == s.(handles := s.handles - {h}))
    || (exists h, c :: h !in s.handles && Clear(s, h) && c >= 0 && c !in s.blocks && u == Created(s, h, c))
  }

  /** The constructor from a raw pointer; nobody else knows of the block yet. */
  function Created(s: State, h: int, c: int): State {
    s.(handles := s.handles[h := Full(c)], blocks := s.blocks[c := Block(1, 0, 0, 0, NOBODY, NOBODY)])
  }

  ghost predicate Trace(tr: seq<State>) {
    |tr| > 0 && tr[0] == START && forall i | 0 <= i < |tr| - 1 :: Next(tr[i], tr[i + 1])
  }

  // ---------------------------------------------------------------- invariant

  predicate Frees(stage: Stage) {
    stage == FreeMutex || stage == ClearFreed
  }

  predicate Last(stage: Stage) {
    stage == FreePayload || stage == FreeCounter || stage == UnlockFreed || Frees(stage)
  }

  /** How many handles more than the count says refer to the block a job is at. */
  function Lag(stage: Stage): int {
    if Last(stage) || stage == DropTest || stage == DropClear
       || stage == ShareAdd || stage == TakeAdd || stage == TakeClear then 1 else 0
  }

  /** The block while a job at this stage holds its mutex or is freeing it. */
  ghost predicate InHand(b: Block, stage: Stage, refs: nat) {
    && b.count == refs - Lag(stage)
    && (Last(stage) ==> b.count == 0)
    && (!Last(stage) && stage != DropTest ==> b.count > 0)
    && b.payloadFrees == (if Last(stage) && stage != FreePayload then 1 else 0)
    && b.counterFrees == (if Last(stage) && stage != FreePayload && stage != FreeCounter then 1 else 0)
    && b.mutexFrees == (if stage == ClearFreed then 1 else 0)
  }

  ghost predicate AtRest(b: Block, refs: nat) {
    b == if refs > 0 then Block(refs, 0, 0, 0, NOBODY, NOBODY) else Block(0, 1, 1, 1, NOBODY, NOBODY)
  }

  ghost predicate BlockInv(s: State, c: int)
    requires c in s.blocks
  {
    var b := s.blocks[c];
    var refs := |Refs(s.handles, c)|;
    if b.holder != NOBODY then
      && b.freer == NOBODY && b.holder in s.jobs && s.jobs[b.holder].c == c
      && !Waits(s.jobs[b.holder].stage) && !Frees(s.jobs[b.holder].stage)
      && InHand(b, s.jobs[b.holder].stage, refs)
    else if b.freer != NOBODY then
      && b.freer in s.jobs && s.jobs[b.freer].c == c && Frees(s.jobs[b.freer].stage)
      && InHand(b, s.jobs[b.freer].stage, refs)
    else AtRest(b, refs)
  }

  predicate Holds(s: State, h: int, c: int) {
    h in s.handles && s.handles[h] == Full(c)
  }

  /** What a job knows of its handles at each stage. */
  predicate HandlesAt(s: State, j: Job)
    requires j.h in s.handles
  {
    var v := s.handles[j.h];
    match j.stage
    case ClearFreed => v == Handle(j.c, j.c, NULL)
    case DropUnlock => v == Handle(NULL, NULL, j.c)
    case ShareLock => v.raw == NULL && j.goal.Copy? && Holds(s, j.goal.rhs, j.c)
    case ShareCopy => v.raw == NULL && j.goal.Copy? && Holds(s, j.goal.rhs, j.c)
    case ShareAdd => v == Full(j.c) && j.goal.Copy? && Holds(s, j.goal.rhs, j.c)
    case ShareUnlock => v == Full(j.c) && j.goal.Copy?
    case TakeLock => v.raw == NULL && j.goal.Move? && Holds(s, j.goal.rhs, j.c)
    case TakeCopy => v.raw == NULL && j.goal.Move? && Holds(s, j.goal.rhs, j.c)
    case TakeAdd => v == Full(j.c) && j.goal.Move? && Holds(s, j.goal.rhs, j.c)
    case TakeSub => v == Full(j.c) && j.goal.Move? && Holds(s, j.goal.rhs, j.c)
    case TakeClear => v == Full(j.c) && j.goal.Move? && Holds(s, j.goal.rhs, j.c)
    case TakeUnlock => v == Full(j.c) && j.goal.Move? && j.goal.rhs in s.handles && s.handles[j.goal.rhs] == EMPTY
    case _ => v == Full(j.c)
  }

  /** While the handle is being given up, the other one refers to something and will go on to. */
  predicate GoalAt(s: State, j: Job) {
    j.goal.Copy? || j.goal.Move? ==>
      && j.goal.rhs != j.h && j.goal.rhs in s.handles
      && (!Sharing(j.stage) && !Taking(j.stage) ==>
            && s.handles[j.goal.rhs].raw >= 0 && s.handles[j.goal.rhs].raw in s.blocks
            && Holds(s, j.goal.rhs, s.handles[j.goal.rhs].raw))
  }

  predicate JobInv(s: State, t: int)
    requires t in s.jobs
  {
    var j := s.jobs[t];
    && t >= 0 && j.h in s.handles && j.c >= 0 && j.c in s.blocks
    && HandlesAt(s, j) && GoalAt(s, j)
    && (!Waits(j.stage) && !Frees(j.stage) ==> s.blocks[j.c].holder == t)
    && (Frees(j.stage) ==> s.blocks[j.c].freer == t && s.blocks[j.c].holder == NOBODY)
  }

  ghost predicate Written(s: State, h: int) {
    exists t :: t in s.jobs && h in Writes(s.jobs[t])
  }

  ghost predicate HandleInv(s: State, h: int)
    requires h in s.handles
  {
    var v := s.handles[h];
    && (v.raw == NULL || (v.raw >= 0 && v.raw in s.blocks))
    && (v == EMPTY || v == Full(v.raw) || Written(s, h))
  }

  ghost predicate Exclusive(s: State, t: int, u: int)
    requires t in s.jobs && u in s.jobs
  {
    t != u ==> Writes(s.jobs[t]) !! Touches(s.jobs[u])
  }

  ghost predicate Inv(s: State) {
    && (forall c | c in s.blocks :: c >= 0 && BlockInv(s, c))
    && (forall t | t in s.jobs :: JobInv(s, t))
    && (forall h | h in s.handles :: HandleInv(s, h))
    && (forall t, u | t in s.jobs && u in s.jobs :: Exclusive(s, t, u))
  }

  // ---------------------------------------------------------------- one step, and everyone else

  function RawOf(handles: map<int, Handle>, h: int): int {
    if h in handles then handles[h].raw else NULL
  }

  predicate SameHandle(s: State, u: State, h: int) {
    (h in u.handles <==> h in s.handles) && (h in s.handles ==> u.handles[h] == s.handles[h])
  }

  predicate SameJob(s: State, u: State, t: int) {
    (t in u.jobs <==> t in s.jobs) && (t in s.jobs ==> u.jobs[t] == s.jobs[t])
  }

  /** A step of t changes its own job, its own handles, and the block it is at, which no one else has in hand. */
  ghost predicate Local(s: State, u: State, t: int)
    requires t in s.jobs
  {
    var j := s.jobs[t];
    && j.c in s.blocks && j.c in u.blocks && u.blocks == s.blocks[j.c := u.blocks[j.c]]
    && (s.blocks[j.c].holder == t || s.blocks[j.c].holder == NOBODY)
    && (s.blocks[j.c].freer == t || s.blocks[j.c].freer == NOBODY)
    && (forall h | h !in Writes(j) :: SameHandle(s, u, h))
    && (forall v | v != t :: SameJob(s, u, v))
    && (forall h | h in Writes(j) :: RawOf(u.handles, h) == RawOf(s.handles, h)
          || ((RawOf(s.handles, h) == j.c || RawOf(s.handles, h) == NULL)
              && (RawOf(u.handles, h) == j.c || RawOf(u.handles, h) == NULL)))
    && (t in u.jobs ==> Writes(u.jobs[t]) == Writes(j) && Touches(u.jobs[t]) == Touches(j))
  }

  lemma OthersKeep(s: State, u: State, t: int, v: int)
    requires t in s.jobs && v in s.jobs && v != t && v in u.jobs
    requires JobInv(s, v) && Local(s, u, t) && Exclusive(s, t, v) && SameJob(s, u, v)
    ensures JobInv(u, v)
  {
    var j := s.jobs[v];
    assert j.h in Touches(j) && SameHandle(s, u, j.h);
    if j.goal.Copy? || j.goal.Move? {
      assert j.goal.rhs in Touches(j) && SameHandle(s, u, j.goal.rhs);
    }
  }

  lemma OtherRefs(s: State, u: State, t: int, d: int)
    requires t in s.jobs && Local(s, u, t) && d != s.jobs[t].c && d >= 0
    ensures Refs(u.handles, d) == Refs(s.handles, d)
  {
    forall h
      ensures RawOf(u.handles, h) == d <==> RawOf(s.handles, h) == d
    {
      if h !in Writes(s.jobs[t]) {
        assert SameHandle(s, u, h);
      }
    }
    forall h
      ensures h in Refs(u.handles, d) <==> h in Refs(s.handles, d)
    {
      assert h in Refs(u.handles, d) <==> RawOf(u.handles, h) == d;
    }
  }

  lemma OtherBlocks(s: State, u: State, t: int, d: int)
    requires t in s.jobs && Local(s, u, t) && d != s.jobs[t].c && d >= 0
    requires d in s.blocks && BlockInv(s, d) && d in u.blocks
    ensures BlockInv(u, d)
  {
    OtherRefs(s, u, t, d);
    var b := s.blocks[d];
    assert u.blocks[d] == b;
    assert b.holder != NOBODY ==> b.holder != t && SameJob(s, u, b.holder);
    assert b.freer != NOBODY ==> b.freer != t && SameJob(s, u, b.freer);
  }

  lemma OtherHandles(s: State, u: State, t: int, h: int)
    requires t in s.jobs && Local(s, u, t) && h !in Writes(s.jobs[t]) && h in u.handles
    requires h in s.handles && HandleInv(s, h)
    ensures HandleInv(u, h)
  {
    assert SameHandle(s, u, h);
    if Written(s, h) {
      var v :| v in s.jobs && h in Writes(s.jobs[v]);
      assert SameJob(s, u, v);
      assert Written(u, h);
    }
  }

  lemma StillExclusive(s: State, u: State, t: int, v: int, w: int)
    requires t in s.jobs && Local(s, u, t) && v in u.jobs && w in u.jobs
    requires forall x, y | x in s.jobs && y in s.jobs :: Exclusive(s, x, y)
    ensures Exclusive(u, v, w)
  {
    assert v != t ==> SameJob(s, u, v);
    assert w != t ==> SameJob(s, u, w);
    assert Exclusive(s, v, w);
  }

  /** So only the block, the job and the handles of the one who made the step need looking at. */
  lemma LocalKeepsInv(s: State, u: State, t: int)
    requires Inv(s) && t in s.jobs && Local(s, u, t)
    requires BlockInv(u, s.jobs[t].c)
    requires t in u.jobs ==> JobInv(u, t)
    requires forall h | h in Writes(s.jobs[t]) && h in u.handles :: HandleInv(u, h)
    ensures Inv(u)
  {
    forall c | c in u.blocks
      ensures c >= 0 && BlockInv(u, c)
    {
      if c != s.jobs[t].c {
        assert BlockInv(s, c);
        OtherBlocks(s, u, t, c);
      }
    }
    forall v | v in u.jobs
      ensures JobInv(u, v)
    {
      if v != t {
        assert SameJob(s, u, v) && JobInv(s, v) && Exclusive(s, t, v);
        OthersKeep(s, u, t, v);
      }
    }
    forall h | h in u.handles
      ensures HandleInv(u, h)
    {
      if h !in Writes(s.jobs[t]) {
        assert SameHandle(s, u, h) && HandleInv(s, h);
        OtherHandles(s, u, t, h);
      }
    }
    forall v, w | v in u.jobs && w in u.jobs
      ensures Exclusive(u, v, w)
    {
      StillExclusive(s, u, t, v, w);
    }
  }

  // ---------------------------------------------------------------- the steps one by one

  lemma OnlyOne(refs: set<int>, x: int, y: int)
    requires x in refs && y in refs && |refs| == 1
    ensures x == y
  {
    assert |refs - {x}| == 0;
    assert y !in refs - {x};
  }

  /** A block some operation's handle refers to is not being freed by another. */
  lemma NotBeingFreed(s: State, t: int, x: int, c: int)
    requires Inv(s) && t in s.jobs && x in Touches(s.jobs[t]) && Holds(s, x, c) && c in s.blocks
    requires !Frees(s.jobs[t].stage)
    ensures s.blocks[c].holder == NOBODY ==> AtRest(s.blocks[c], |Refs(s.handles, c)|) && s.blocks[c].count > 0
  {
    var b, refs := s.blocks[c], Refs(s.handles, c);
    assert BlockInv(s, c) && x in refs;
    if b.holder == NOBODY && b.freer != NOBODY {
      var v := b.freer;
      assert JobInv(s, v) && Exclusive(s, v, t);
      assert s.jobs[v].h in refs && |refs| == 1;
      OnlyOne(refs, x, s.jobs[v].h);
    }
  }

  /** As long as the job goes on its handles are accounted for by it. */
  lemma OwnHandles(s: State, u: State, t: int)
    requires t in s.jobs && t in u.jobs && Writes(u.jobs[t]) == Writes(s.jobs[t])
    requires forall h | h in Writes(s.jobs[t]) && h in u.handles ::
      u.handles[h].raw == NULL || (u.handles[h].raw >= 0 && u.handles[h].raw in u.blocks)
    ensures forall h | h in Writes(s.jobs[t]) && h in u.handles :: HandleInv(u, h)
  {
    forall h | h in Writes(s.jobs[t]) && h in u.handles
      ensures HandleInv(u, h)
    {
      assert t in u.jobs && h in Writes(u.jobs[t]);
      assert Written(u, h);
    }
  }

  /** While something is being copied or taken over two handles refer to the block, else at least one. */
  predicate EnoughRefs(stage: Stage, refs: nat) {
    && (stage != DropUnlock ==> refs >= 1)
    && (stage == ShareAdd || stage == TakeAdd || stage == TakeSub || stage == TakeClear ==> refs >= 2)
  }

  lemma JobHasRefs(s: State, t: int)
    requires t in s.jobs && JobInv(s, t)
    ensures EnoughRefs(s.jobs[t].stage, |Refs(s.handles, s.jobs[t].c)|)
  {
    var j := s.jobs[t];
    var refs := Refs(s.handles, j.c);
    if j.stage == ShareAdd || j.stage == TakeAdd || j.stage == TakeSub || j.stage == TakeClear {
      assert {j.h, j.goal.rhs} <= refs;
      assert |refs - {j.h, j.goal.rhs}| == |refs| - 2;
    } else if s.handles[j.h].raw == j.c {
      assert j.h in refs;
    } else if j.stage != DropUnlock {
      assert j.goal.rhs in refs;
    }
  }

  /** A step on a block keeps count and frees right for the stage that follows. */
  lemma InHandAfter(b: Block, stage: Stage, refs: nat, t: int)
    requires InHand(b, stage, refs) && ChangesBlock(stage) && EnoughRefs(stage, refs)
    ensures InHand(BlockAfter(b, stage, t), StageAfter(b, stage), refs)
  {
  }

  /** How many handles more a step makes refer to the block. */
  function Gains(stage: Stage): int {
    if stage == ShareCopy || stage == TakeCopy then 1
    else if stage == DropClear || stage == TakeClear then -1
    else 0
  }

  lemma InHandMoved(b: Block, stage: Stage, refs: nat, t: int)
    requires InHand(b, stage, refs) && ChangesHandle(stage) && EnoughRefs(stage, refs)
    ensures refs + Gains(stage) >= 0
    ensures InHand(BlockAfter(b, stage, t), StageAfter(b, stage), refs + Gains(stage))
  {
  }

  /** What the job that is next to make a step knows of its block. */
  ghost predicate Ready(s: State, t: int) {
    && Sane(s, t) && JobInv(s, t)
    && BlockInv(s, s.jobs[t].c) && EnoughRefs(s.jobs[t].stage, |Refs(s.handles, s.jobs[t].c)|)
  }

  lemma JobIsReady(s: State, t: int)
    requires Inv(s) && t in s.jobs
    ensures Ready(s, t)
  {
    assert JobInv(s, t) && BlockInv(s, s.jobs[t].c);
    JobHasRefs(s, t);
  }

  lemma LockKeepsInv(s: State, t: int)
    requires Inv(s) && Sane(s, t) && Waits(s.jobs[t].stage)
    ensures Inv(Step(s, t))
  {
    var j, u := s.jobs[t], Step(s, t);
    if s.blocks[j.c].holder == NOBODY {
      assert JobInv(s, t);
      NotBeingFreed(s, t, if j.stage == DropLock then j.h else j.goal.rhs, j.c);
      LockIsLocal(s, t);
      assert forall h | h in s.handles :: HandleInv(s, h);
      OwnHandles(s, u, t);
      LocalKeepsInv(s, u, t);
    }
  }

  lemma LockIsLocal(s: State, t: int)
    requires Sane(s, t) && JobInv(s, t) && Waits(s.jobs[t].stage)
    requires var b := s.blocks[s.jobs[t].c];
             b.holder == NOBODY && AtRest(b, |Refs(s.handles, s.jobs[t].c)|) && b.count > 0
    ensures Step(s, t).handles == s.handles && Step(s, t).blocks.Keys == s.blocks.Keys
    ensures t in Step(s, t).jobs && Local(s, Step(s, t), t) && JobInv(Step(s, t), t)
    ensures BlockInv(Step(s, t), s.jobs[t].c)
  {
  }

  lemma BlockStepIsLocal(s: State, t: int)
    requires Ready(s, t) && ChangesBlock(s.jobs[t].stage)
    ensures Step(s, t).handles == s.handles && Step(s, t).blocks.Keys == s.blocks.Keys
    ensures t in Step(s, t).jobs && Local(s, Step(s, t), t)
  {
  }

  lemma BlockStepCounts(s: State, t: int)
    requires Ready(s, t) && ChangesBlock(s.jobs[t].stage)
    ensures s.jobs[t].c in Step(s, t).blocks && BlockInv(Step(s, t), s.jobs[t].c)
  {
    var j := s.jobs[t];
    InHandAfter(s.blocks[j.c], j.stage, |Refs(s.handles, j.c)|, t);
  }

  lemma BlockStepJob(s: State, t: int)
    requires Ready(s, t) && ChangesBlock(s.jobs[t].stage)
    ensures t in Step(s, t).jobs && JobInv(Step(s, t), t)
  {
    assert Step(s, t).handles == s.handles;
  }

  /** The count and the frees, on the block of which the mutex is held. */
  lemma BlockStepKeepsInv(s: State, t: int)
    requires Inv(s) && Sane(s, t) && ChangesBlock(s.jobs[t].stage)
    ensures Inv(Step(s, t))
  {
    JobIsReady(s, t);
    BlockStepIsLocal(s, t);
    BlockStepCounts(s, t);
    BlockStepJob(s, t);
    assert forall h | h in s.handles :: HandleInv(s, h);
    OwnHandles(s, Step(s, t), t);
    LocalKeepsInv(s, Step(s, t), t);
  }

  lemma HandleStepChanges(s: State, t: int)
    requires Ready(s, t) && ChangesHandle(s.jobs[t].stage)
    ensures var j, h := s.jobs[t], ChangedHandle(s.jobs[t]);
            var v := HandleAfter(s.handles, j);
            && h in Writes(j) && h in s.handles && Step(s, t).handles == s.handles[h := v]
            && (s.handles[h].raw == j.c || s.handles[h].raw == NULL) && (v.raw == j.c || v.raw == NULL)
            && Gains(j.stage) == (if v.raw == j.c then 1 else 0) - (if s.handles[h].raw == j.c then 1 else 0)
  {
  }

  lemma HandleStepIsLocal(s: State, t: int)
    requires Ready(s, t) && ChangesHandle(s.jobs[t].stage)
    ensures Step(s, t).blocks.Keys == s.blocks.Keys
    ensures t in Step(s, t).jobs && Local(s, Step(s, t), t)
  {
    HandleStepChanges(s, t);
    var h, u := ChangedHandle(s.jobs[t]), Step(s, t);
    assert forall k :: k != h ==> SameHandle(s, u, k);
  }

  /** A job past its lock has the block in hand, by the mutex or as the one freeing it. */
  ghost predicate HasInHand(s: State, t: int)
    requires t in s.jobs
  {
    var j := s.jobs[t];
    && j.c in s.blocks && !Waits(j.stage)
    && s.blocks[j.c].holder == (if Frees(j.stage) then NOBODY else t)
    && s.blocks[j.c].freer == (if Frees(j.stage) then t else NOBODY)
    && InHand(s.blocks[j.c], j.stage, |Refs(s.handles, j.c)|)
  }

  lemma ReadyHasInHand(s: State, t: int)
    requires Ready(s, t) && !Waits(s.jobs[t].stage)
    ensures HasInHand(s, t)
  {
  }

  lemma InHandIsInv(s: State, t: int)
    requires t in s.jobs && t >= 0 && HasInHand(s, t)
    ensures BlockInv(s, s.jobs[t].c)
  {
  }

  lemma HandleStepCounts(s: State, t: int)
    requires Ready(s, t) && ChangesHandle(s.jobs[t].stage)
    ensures s.jobs[t].c in Step(s, t).blocks && BlockInv(Step(s, t), s.jobs[t].c)
  {
    ReadyHasInHand(s, t);
    var j, u := s.jobs[t], Step(s, t);
    HandleStepRefs(s, t);
    InHandMoved(s.blocks[j.c], j.stage, |Refs(s.handles, j.c)|, t);
    InHandIsInv(u, t);
  }

  lemma HandleStepRefs(s: State, t: int)
    requires Ready(s, t) && ChangesHandle(s.jobs[t].stage)
    ensures var j := s.jobs[t];
            |Refs(Step(s, t).handles, j.c)| == |Refs(s.handles, j.c)| + Gains(j.stage)
  {
    HandleStepChanges(s, t);
    var j := s.jobs[t];
    RefsAfter(s.handles, ChangedHandle(j), HandleAfter(s.handles, j), j.c);
  }

  lemma HandleStepJob(s: State, t: int)
    requires Ready(s, t) && ChangesHandle(s.jobs[t].stage)
    ensures t in Step(s, t).jobs && JobInv(Step(s, t), t)
  {
    HandleStepChanges(s, t);
  }

  /** The pointers of a handle, under the mutex, and the freeing of the mutex itself. */
  lemma HandleStepKeepsInv(s: State, t: int)
    requires Inv(s) && Sane(s, t) && ChangesHandle(s.jobs[t].stage)
    ensures Inv(Step(s, t))
  {
    JobIsReady(s, t);
    HandleStepChanges(s, t);
    HandleStepIsLocal(s, t);
    HandleStepCounts(s, t);
    HandleStepJob(s, t);
    HandleStepRaws(s, Step(s, t), t);
    OwnHandles(s, Step(s, t), t);
    LocalKeepsInv(s, Step(s, t), t);
  }

  lemma HandleStepRaws(s: State, u: State, t: int)
    requires Inv(s) && Sane(s, t) && u.blocks.Keys == s.blocks.Keys
    requires var h := ChangedHandle(s.jobs[t]);
             h in u.handles && u.handles == s.handles[h := u.handles[h]] && u.handles[h].raw in {NULL, s.jobs[t].c}
    ensures forall h | h in Writes(s.jobs[t]) && h in u.handles ::
              u.handles[h].raw == NULL || (u.handles[h].raw >= 0 && u.handles[h].raw in u.blocks)
  {
    assert forall h | h in s.handles :: HandleInv(s, h);
  }

  predicate Ends(stage: Stage) {
    stage == ShareUnlock || stage == TakeUnlock || stage == DropUnlock || stage == ClearFreed
  }

  function GoesOn(s: State, t: int): Job
    requires Sane(s, t)
  {
    var j := s.jobs[t];
    match j.goal
    case Copy(rhs) => Job(ShareLock, j.h, s.handles[rhs].raw, j.goal)
    case Move(rhs) => Job(TakeLock, j.h, s.handles[rhs].raw, j.goal)
    case _ => j
  }

  /** What ending, or going on to the next block, does to the state. */
  predicate EndShape(s: State, u: State, t: int)
    requires Sane(s, t)
  {
    var j := s.jobs[t];
    && u.blocks == s.blocks[j.c := BlockAfter(s.blocks[j.c], j.stage, t)]
    && (j.stage == ShareUnlock || j.stage == TakeUnlock ==> u.handles == s.handles && u.jobs == s.jobs - {t})
    && (j.stage == DropUnlock || j.stage == ClearFreed ==>
          && (u.handles == s.handles[j.h := EMPTY] || u.handles == s.handles - {j.h})
          && (u.jobs == s.jobs - {t} || u.jobs == s.jobs[t := GoesOn(s, t)]))
    && (t in u.jobs ==> u.jobs[t] == GoesOn(s, t) && u.handles == s.handles[j.h := EMPTY])
    && (t in u.jobs ==> j.goal.Copy? || j.goal.Move?)
  }

  lemma EndChanges(s: State, t: int)
    requires Sane(s, t) && Ends(s.jobs[t].stage)
    ensures EndShape(s, Step(s, t), t)
  {
    if s.jobs[t].stage == DropUnlock || s.jobs[t].stage == ClearFreed {
      var b := s.blocks[s.jobs[t].c];
      var v := State(s.handles, s.blocks[s.jobs[t].c := BlockAfter(b, s.jobs[t].stage, t)], s.jobs);
      assert Step(s, t) == Proceed(v, t) && GoesOn(v, t) == GoesOn(s, t);
    }
  }

  lemma EndIsLocal(s: State, u: State, t: int)
    requires Ready(s, t) && Ends(s.jobs[t].stage) && EndShape(s, u, t)
    ensures u.blocks.Keys == s.blocks.Keys && Local(s, u, t)
  {
    assert forall k :: k != s.jobs[t].h ==> SameHandle(s, u, k);
    ReadyHasInHand(s, t);
  }

  lemma EndCounts(s: State, u: State, t: int)
    requires Ready(s, t) && Ends(s.jobs[t].stage) && EndShape(s, u, t)
    ensures s.jobs[t].c in u.blocks && BlockInv(u, s.jobs[t].c)
  {
    ReadyHasInHand(s, t);
    var j := s.jobs[t];
    RefsAfter(s.handles, j.h, EMPTY, j.c);
    assert AtRest(u.blocks[j.c], |Refs(u.handles, j.c)|);
  }

  /** An operation that ends leaves its handles whole, one that goes on leaves its own one empty. */
  lemma EndHandles(s: State, u: State, t: int, h: int)
    requires Ready(s, t) && Ends(s.jobs[t].stage) && EndShape(s, u, t)
    requires h in Writes(s.jobs[t]) && h in u.handles && h in s.handles && HandleInv(s, h)
    ensures HandleInv(u, h)
  {
    assert u.blocks.Keys == s.blocks.Keys;
    EndLeavesWhole(s, u, t, h);
  }

  lemma EndLeavesWhole(s: State, u: State, t: int, h: int)
    requires Sane(s, t) && JobInv(s, t) && Ends(s.jobs[t].stage) && EndShape(s, u, t)
    requires h in Writes(s.jobs[t]) && h in u.handles && h in s.handles
    ensures u.handles[h] == EMPTY || (u.handles[h] == s.handles[h] && s.handles[h] == Full(s.handles[h].raw))
  {
  }

  lemma EndJob(s: State, u: State, t: int)
    requires Ready(s, t) && Ends(s.jobs[t].stage) && EndShape(s, u, t) && t in u.jobs
    ensures JobInv(u, t)
  {
    var j := s.jobs[t];
    assert GoalAt(s, j) && j.goal.rhs != j.h;
    assert u.handles[j.goal.rhs] == s.handles[j.goal.rhs] && u.handles[j.h] == EMPTY;
  }

  lemma EndKeepsInv(s: State, t: int)
    requires Inv(s) && Sane(s, t) && Ends(s.jobs[t].stage)
    ensures Inv(Step(s, t))
  {
    JobIsReady(s, t);
    EndChanges(s, t);
    ShapedEndKeepsInv(s, Step(s, t), t);
  }

  lemma ShapedEndKeepsInv(s: State, u: State, t: int)
    requires Inv(s) && Ready(s, t) && Ends(s.jobs[t].stage) && EndShape(s, u, t)
    ensures Inv(u)
  {
    EndIsLocal(s, u, t);
    EndCounts(s, u, t);
    if t in u.jobs {
      EndJob(s, u, t);
    }
    forall h | h in Writes(s.jobs[t]) && h in u.handles
      ensures HandleInv(u, h)
    {
      assert HandleInv(s, h);
      EndHandles(s, u, t, h);
    }
    LocalKeepsInv(s, u, t);
  }

  lemma StepKeepsInv(s: State, t: int)
    requires Inv(s) && Sane(s, t)
    ensures Inv(Step(s, t))
  {
    var stage := s.jobs[t].stage;
    if Waits(stage) {
      LockKeepsInv(s, t);
    } else if ChangesBlock(stage) {
      BlockStepKeepsInv(s, t);
    } else if ChangesHandle(stage) {
      HandleStepKeepsInv(s, t);
    } else {
      EndKeepsInv(s, t);
    }
  }

  // ---------------------------------------------------------------- starting, creating, removing

  lemma BegunJob(s: State, t: int, h: int, goal: Goal)
    requires Inv(s) && MayBegin(s, t, h, goal)
    ensures t in Begin(s, t, h, goal).jobs && JobInv(Begin(s, t, h, goal), t)
  {
    assert HandleInv(s, h) && !Written(s, h);
    if goal.Copy? || goal.Move? {
      assert HandleInv(s, goal.rhs) && !Written(s, goal.rhs);
    }
  }

  lemma BegunAlone(s: State, t: int, h: int, goal: Goal, v: int)
    requires Inv(s) && MayBegin(s, t, h, goal) && v in s.jobs
    ensures var u := Begin(s, t, h, goal);
            t in u.jobs && v in u.jobs && Exclusive(u, t, v) && Exclusive(u, v, t)
  {
  }

  /** A new job changes nothing for the others. */
  lemma AddedJobKeepsInv(s: State, u: State, t: int)
    requires Inv(s) && t !in s.jobs && t in u.jobs && u == s.(jobs := s.jobs[t := u.jobs[t]]) && JobInv(u, t)
    requires forall v | v in s.jobs :: Exclusive(u, t, v) && Exclusive(u, v, t)
    ensures Inv(u)
  {
    forall c | c in u.blocks
      ensures c >= 0 && BlockInv(u, c)
    {
      assert BlockInv(s, c);
    }
    forall v | v in u.jobs
      ensures JobInv(u, v)
    {
      assert v != t ==> JobInv(s, v);
    }
    forall k | k in u.handles
      ensures HandleInv(u, k)
    {
      assert HandleInv(s, k);
      if Written(s, k) {
        var v :| v in s.jobs && k in Writes(s.jobs[v]);
        assert v in u.jobs && k in Writes(u.jobs[v]);
        assert Written(u, k);
      }
    }
    forall v, w | v in u.jobs && w in u.jobs
      ensures Exclusive(u, v, w)
    {
      assert v != t && w != t ==> Exclusive(s, v, w);
    }
  }

  lemma BeginKeepsInv(s: State, t: int, h: int, goal: Goal)
    requires Inv(s) && MayBegin(s, t, h, goal)
    ensures Inv(Begin(s, t, h, goal))
  {
    BegunJob(s, t, h, goal);
    forall v | v in s.jobs {
      BegunAlone(s, t, h, goal, v);
    }
    AddedJobKeepsInv(s, Begin(s, t, h, goal), t);
  }

  /** What happens to a handle no operation uses, and that refers to nothing before, leaves all jobs alone. */
  lemma AloneKeepsJobs(s: State, u: State, h: int)
    requires Inv(s) && Clear(s, h) && u.jobs == s.jobs
    requires forall k | k != h :: SameHandle(s, u, k)
    requires forall c | c in s.blocks :: c in u.blocks && u.blocks[c] == s.blocks[c]
    ensures forall t | t in u.jobs :: JobInv(u, t)
    ensures forall t, v | t in u.jobs && v in u.jobs :: Exclusive(u, t, v)
  {
    forall t | t in u.jobs
      ensures JobInv(u, t)
    {
      var j := s.jobs[t];
      assert JobInv(s, t) && h !in Touches(j);
      assert j.h in Touches(j) && SameHandle(s, u, j.h);
      if j.goal.Copy? || j.goal.Move? {
        assert j.goal.rhs in Touches(j) && SameHandle(s, u, j.goal.rhs);
      }
    }
    forall t, v | t in u.jobs && v in u.jobs
      ensures Exclusive(u, t, v)
    {
      assert Exclusive(s, t, v);
    }
  }

  lemma AloneKeepsHandles(s: State, u: State, h: int)
    requires Inv(s) && u.jobs == s.jobs && (forall k | k != h :: SameHandle(s, u, k))
    requires s.blocks.Keys <= u.blocks.Keys
    requires h in u.handles ==> HandleInv(u, h)
    ensures forall k | k in u.handles :: HandleInv(u, k)
  {
    forall k | k in u.handles && k != h
      ensures HandleInv(u, k)
    {
      assert SameHandle(s, u, k) && HandleInv(s, k);
      assert Written(s, k) ==> Written(u, k);
    }
  }

  /** Default construction, and destruction, of a handle that refers to nothing. */
  lemma EmptyKeepsInv(s: State, h: int)
    requires Inv(s) && Clear(s, h)
    ensures h !in s.handles ==> Inv(s.(handles := s.handles[h := EMPTY]))
    ensures h in s.handles && s.handles[h].raw == NULL ==> Inv(s.(handles := s.handles - {h}))
  {
    var u, v := s.(handles := s.handles[h := EMPTY]), s.(handles := s.handles - {h});
    if h !in s.handles || s.handles[h].raw == NULL {
      forall c | c in s.blocks
        ensures BlockInv(u, c) && BlockInv(v, c)
      {
        assert BlockInv(s, c);
        RefsAfter(s.handles, h, EMPTY, c);
      }
      AloneKeepsJobs(s, u, h);
      AloneKeepsJobs(s, v, h);
      AloneKeepsHandles(s, u, h);
      AloneKeepsHandles(s, v, h);
    }
  }

  lemma CreatedKeepsInv(s: State, h: int, c: int)
    requires Inv(s) && h !in s.handles && Clear(s, h) && c >= 0 && c !in s.blocks
    ensures Inv(Created(s, h, c))
  {
    var u := Created(s, h, c);
    forall k
      ensures k !in Refs(s.handles, c)
    {
      assert k in s.handles ==> HandleInv(s, k);
    }
    assert Refs(s.handles, c) == {};
    forall d | d in u.blocks
      ensures BlockInv(u, d)
    {
      RefsAfter(s.handles, h, Full(c), d);
      assert Refs(s.handles - {h}, c) == {};
      assert d != c ==> BlockInv(s, d);
    }
    AloneKeepsJobs(s, u, h);
    AloneKeepsHandles(s, u, h);
  }

  lemma NextKeepsInv(s: State, u: State)
    requires Inv(s) && Next(s, u)
    ensures Inv(u)
  {
    if t :| Sane(s, t) && u == Step(s, t) {
      StepKeepsInv(s, t);
    } else if t, h, goal :| MayBegin(s, t, h, goal) && u == Begin(s, t, h, goal) {
      BeginKeepsInv(s, t, h, goal);
    } else if h, c :| h !in s.handles && Clear(s, h) && c >= 0 && c !in s.blocks && u == Created(s, h, c) {
      CreatedKeepsInv(s, h, c);
    } else if h :| h !in s.handles && Clear(s, h) && u == s.(handles := s.handles[h := EMPTY]) {
      EmptyKeepsInv(s, h);
    } else {
      var h :| h in s.handles && Clear(s, h) && s.handles[h].raw == NULL && u == s.(handles := s.handles - {h});
      EmptyKeepsInv(s, h);
    }
  }

  // ---------------------------------------------------------------- whole runs

  lemma {:induction false} TraceKeepsInv(tr: seq<State>, i: nat)
    requires Trace(tr) && i < |tr|
    ensures Inv(tr[i])
  {
    if i > 0 {
      TraceKeepsInv(tr, i - 1);
      assert Next(tr[i - 1], tr[i - 1 + 1]);
      NextKeepsInv(tr[i - 1], tr[i]);
    }
  }

  /**
   * In every reachable state of every interleaving no part of a block has been freed twice, nothing
   * has been freed while more than one handle refers to the block, and a block nobody has in hand
   * counts its handles exactly, or has been freed and has none.
   */
  lemma FreedOnceAndLast(tr: seq<State>, i: nat, c: int)
    requires Trace(tr) && i < |tr| && c in tr[i].blocks
    ensures var b, refs := tr[i].blocks[c], |Refs(tr[i].handles, c)|;
            && b.payloadFrees <= 1 && b.counterFrees <= 1 && b.mutexFrees <= 1
            && (b.payloadFrees + b.counterFrees + b.mutexFrees > 0 ==> b.count == 0 && refs <= 1)
            && (b.holder == NOBODY && b.freer == NOBODY ==>
                  b == if refs > 0 then Block(refs, 0, 0, 0, NOBODY, NOBODY)
                       else Block(0, 1, 1, 1, NOBODY, NOBODY))
  {
    TraceKeepsInv(tr, i);
    assert BlockInv(tr[i], c);
  }

  /** Which part of its block a step is about to use. */
  predicate UsesMutex(stage: Stage) {
    Waits(stage) || stage == DropUnlock || stage == UnlockFreed || stage == FreeMutex
    || stage == ShareUnlock || stage == TakeUnlock
  }

  predicate UsesCounter(stage: Stage) {
    stage == DropSub || stage == DropTest || stage == FreeCounter
    || stage == ShareAdd || stage == TakeAdd || stage == TakeSub
  }

  /** And none is used after it was freed, by whatever process and however the steps interleave. */
  lemma NothingIsUsedAfterFree(tr: seq<State>, i: nat, t: int)
    requires Trace(tr) && i < |tr| && t in tr[i].jobs
    ensures Sane(tr[i], t)
    ensures var b, stage := tr[i].blocks[tr[i].jobs[t].c], tr[i].jobs[t].stage;
            && (UsesMutex(stage) ==> b.mutexFrees == 0)
            && (UsesCounter(stage) ==> b.counterFrees == 0)
            && (stage == FreePayload ==> b.payloadFrees == 0)
            && (!Waits(stage) && !Frees(stage) ==> b.holder == t)
  {
    TraceKeepsInv(tr, i);
    var s := tr[i];
    assert JobInv(s, t);
    JobIsReady(s, t);
    var j := s.jobs[t];
    if Waits(j.stage) {
      NotBeingFreed(s, t, if j.stage == DropLock then j.h else j.goal.rhs, j.c);
      assert BlockInv(s, j.c);
    } else {
      ReadyHasInHand(s, t);
    }
  }

  /** After a move has counted itself in and its source out, the count is still positive. */
  lemma MoveDoesNotFree(tr: seq<State>, i: nat, t: int)
    requires Trace(tr) && i < |tr| && t in tr[i].jobs && tr[i].jobs[t].stage == TakeClear
    ensures tr[i].jobs[t].c in tr[i].blocks && tr[i].blocks[tr[i].jobs[t].c].count > 0
  {
    TraceKeepsInv(tr, i);
    JobIsReady(tr[i], t);
    ReadyHasInHand(tr[i], t);
  }

  /** When no operation is under way the state is one of those between undisturbed operations. */
  lemma QuietIsSettled(tr: seq<State>, i: nat, c: int)
    requires Trace(tr) && i < |tr| && tr[i].jobs == map[] && c in tr[i].blocks
    ensures tr[i].blocks[c].count == |Refs(tr[i].handles, c)|
    ensures tr[i].blocks[c].payloadFrees == tr[i].blocks[c].counterFrees == tr[i].blocks[c].mutexFrees
            == if |Refs(tr[i].handles, c)| > 0 then 0 else 1
  {
    TraceKeepsInv(tr, i);
    assert BlockInv(tr[i], c);
  }
}
