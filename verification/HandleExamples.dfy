/** A run in which two processes give up the two handles of one block at the same time. */
module HandleExamples {
  import opened SharedHandles
  import opened HandleRuns

  ghost predicate Steps(tr: seq<State>, s: State, u: State) {
    && |tr| > 0 && tr[0] == s && tr[|tr| - 1] == u
    && forall i | 0 <= i < |tr| - 1 :: Next(tr[i], tr[i + 1])
  }

  /** Some sequence of steps leads from s to u. */
  ghost predicate Leads(s: State, u: State) {
    exists tr :: Steps(tr, s, u)
  }

  lemma StepsOn(tr: seq<State>, s: State, u: State, v: State)
    requires Steps(tr, s, u) && Next(u, v)
    ensures Steps(tr + [v], s, v)
  {
    var longer := tr + [v];
    forall i | 0 <= i < |longer| - 1
      ensures Next(longer[i], longer[i + 1])
    {
      if i < |tr| - 1 {
        assert longer[i] == tr[i] && longer[i + 1] == tr[i + 1];
        assert Next(tr[i], tr[i + 1]);
      } else {
        assert longer[i] == u && longer[i + 1] == v;
      }
    }
  }

  lemma LeadsOn(s: State, u: State, v: State)
    requires Leads(s, u) && Next(u, v)
    ensures Leads(s, v)
  {
    var tr :| Steps(tr, s, u);
    StepsOn(tr, s, u, v);
  }

  lemma LeadsNowhere(s: State)
    ensures Leads(s, s)
  {
    assert Steps([s], s, s);
  }

  function Held(n: int, holder: int): map<int, Block> {
    map[0 := Block(n, 0, 0, 0, holder, NOBODY)]
  }

  // ---------------------------------------------------------------- two handles

  const MADE: State := State(map[0 := Full(0)], Held(1, NOBODY), map[])
  const SECOND: State := State(map[0 := Full(0), 1 := EMPTY], Held(1, NOBODY), map[])

  function Copying(blocks: map<int, Block>, second: Handle, stage: Stage): State {
    State(map[0 := Full(0), 1 := second], blocks, map[0 := Job(stage, 1, 0, Copy(0))])
  }

  const PAIR: State := State(map[0 := Full(0), 1 := Full(0)], Held(2, NOBODY), map[])

  lemma Makes()
    ensures Next(START, MADE) && Next(MADE, SECOND)
  {
    assert MADE == Created(START, 0, 0);
    assert SECOND == MADE.(handles := MADE.handles[1 := EMPTY]);
    assert Clear(START, 0) && Clear(MADE, 1);
  }

  lemma CopyBegins()
    ensures Next(SECOND, Copying(Held(1, NOBODY), EMPTY, ShareLock))
  {
    assert MayBegin(SECOND, 0, 1, Copy(0));
    assert Begin(SECOND, 0, 1, Copy(0)) == Copying(Held(1, NOBODY), EMPTY, ShareLock);
  }

  lemma CopyLocks()
    ensures Next(Copying(Held(1, NOBODY), EMPTY, ShareLock), Copying(Held(1, 0), EMPTY, ShareCopy))
  {
    var s := Copying(Held(1, NOBODY), EMPTY, ShareLock);
    assert Sane(s, 0) && Step(s, 0) == Copying(Held(1, 0), EMPTY, ShareCopy);
  }

  lemma CopyCopies()
    ensures Next(Copying(Held(1, 0), EMPTY, ShareCopy), Copying(Held(1, 0), Full(0), ShareAdd))
  {
    var s := Copying(Held(1, 0), EMPTY, ShareCopy);
    assert Sane(s, 0) && Step(s, 0) == Copying(Held(1, 0), Full(0), ShareAdd);
  }

  lemma CopyAdds()
    ensures Next(Copying(Held(1, 0), Full(0), ShareAdd), Copying(Held(2, 0), Full(0), ShareUnlock))
  {
    var s := Copying(Held(1, 0), Full(0), ShareAdd);
    assert Sane(s, 0) && Step(s, 0) == Copying(Held(2, 0), Full(0), ShareUnlock);
  }

  lemma CopyEnds()
    ensures Next(Copying(Held(2, 0), Full(0), ShareUnlock), PAIR)
  {
    var s := Copying(Held(2, 0), Full(0), ShareUnlock);
    assert Sane(s, 0) && Step(s, 0) == PAIR;
  }

  lemma PairIsReached()
    ensures Leads(START, PAIR)
  {
    LeadsNowhere(START);
    Makes();
    LeadsOn(START, START, MADE);
    LeadsOn(START, MADE, SECOND);
    CopyBegins();
    LeadsOn(START, SECOND, Copying(Held(1, NOBODY), EMPTY, ShareLock));
    CopyLocks();
    LeadsOn(START, Copying(Held(1, NOBODY), EMPTY, ShareLock), Copying(Held(1, 0), EMPTY, ShareCopy));
    CopyCopies();
    LeadsOn(START, Copying(Held(1, 0), EMPTY, ShareCopy), Copying(Held(1, 0), Full(0), ShareAdd));
    CopyAdds();
    LeadsOn(START, Copying(Held(1, 0), Full(0), ShareAdd), Copying(Held(2, 0), Full(0), ShareUnlock));
    CopyEnds();
    LeadsOn(START, Copying(Held(2, 0), Full(0), ShareUnlock), PAIR);
  }

  // ---------------------------------------------------------------- both given up at once

  /** Process 0 at work on handle 0 while process 1 waits for the mutex to give up handle 1. */
  function Contended(first: Handle, blocks: map<int, Block>, stage: Stage): State {
    State(map[0 := first, 1 := Full(0)], blocks,
          map[0 := Job(stage, 0, 0, Forget), 1 := Job(DropLock, 1, 0, Forget)])
  }

  /** Process 1 at work on the last handle. */
  function Lasting(last: Handle, block: Block, stage: Stage): State {
    State(map[1 := last], map[0 := block], map[1 := Job(stage, 1, 0, Forget)])
  }

  const NOT_YET: Handle := Handle(NULL, NULL, 0)
  const FREED: State := State(map[], map[0 := Block(0, 1, 1, 1, NOBODY, NOBODY)], map[])

  lemma BothBegin()
    ensures Leads(PAIR, Contended(Full(0), Held(2, NOBODY), DropLock))
  {
    var s := State(PAIR.handles, PAIR.blocks, map[0 := Job(DropLock, 0, 0, Forget)]);
    assert MayBegin(PAIR, 0, 0, Forget) && Begin(PAIR, 0, 0, Forget) == s;
    LeadsNowhere(PAIR);
    LeadsOn(PAIR, PAIR, s);
    var u := Contended(Full(0), Held(2, NOBODY), DropLock);
    assert MayBegin(s, 1, 1, Forget) && Begin(s, 1, 1, Forget) == u;
    LeadsOn(PAIR, s, u);
  }

  lemma FirstActs(b: Block, stage: Stage)
    requires stage == DropLock || stage == DropSub || stage == DropTest
    requires stage == DropLock ==> b.holder == NOBODY
    ensures Next(Contended(Full(0), map[0 := b], stage),
                 Contended(Full(0), map[0 := BlockAfter(b, stage, 0)], StageAfter(b, stage)))
  {
    var s := Contended(Full(0), map[0 := b], stage);
    var u := Contended(Full(0), map[0 := BlockAfter(b, stage, 0)], StageAfter(b, stage));
    assert Sane(s, 0) && Step(s, 0) == u;
  }

  /** While process 0 holds the mutex, process 1 cannot go on. */
  lemma SecondWaits()
    ensures var s := Contended(Full(0), Held(1, 0), DropTest); Sane(s, 1) && Step(s, 1) == s
  {
  }

  lemma FirstClears()
    ensures Next(Contended(Full(0), Held(1, 0), DropClear), Contended(NOT_YET, Held(1, 0), DropUnlock))
  {
    var s := Contended(Full(0), Held(1, 0), DropClear);
    assert Sane(s, 0) && Step(s, 0) == Contended(NOT_YET, Held(1, 0), DropUnlock);
  }

  lemma FirstEnds()
    ensures Next(Contended(NOT_YET, Held(1, 0), DropUnlock),
                 Lasting(Full(0), Block(1, 0, 0, 0, NOBODY, NOBODY), DropLock))
  {
    var s := Contended(NOT_YET, Held(1, 0), DropUnlock);
    assert Sane(s, 0) && Step(s, 0) == Lasting(Full(0), Block(1, 0, 0, 0, NOBODY, NOBODY), DropLock);
  }

  lemma LastActs(b: Block, stage: Stage)
    requires stage == DropLock || (ChangesBlock(stage) && stage != ShareAdd && stage != TakeAdd && stage != TakeSub)
    requires stage == DropLock ==> b.holder == NOBODY
    ensures Next(Lasting(Full(0), b, stage), Lasting(Full(0), BlockAfter(b, stage, 1), StageAfter(b, stage)))
  {
    var s := Lasting(Full(0), b, stage);
    assert Sane(s, 1) && Step(s, 1) == Lasting(Full(0), BlockAfter(b, stage, 1), StageAfter(b, stage));
  }

  lemma LastFreesMutex()
    ensures Next(Lasting(Full(0), Block(0, 1, 1, 0, NOBODY, 1), FreeMutex),
                 Lasting(Full(0).(mutex := NULL), Block(0, 1, 1, 1, NOBODY, 1), ClearFreed))
  {
    var s := Lasting(Full(0), Block(0, 1, 1, 0, NOBODY, 1), FreeMutex);
    assert Sane(s, 1);
    assert Step(s, 1) == Lasting(Full(0).(mutex := NULL), Block(0, 1, 1, 1, NOBODY, 1), ClearFreed);
  }

  lemma LastEnds()
    ensures Next(Lasting(Full(0).(mutex := NULL), Block(0, 1, 1, 1, NOBODY, 1), ClearFreed), FREED)
  {
    var s := Lasting(Full(0).(mutex := NULL), Block(0, 1, 1, 1, NOBODY, 1), ClearFreed);
    assert Sane(s, 1) && Step(s, 1) == FREED;
  }

  lemma FirstGetsAhead()
    ensures Leads(PAIR, Contended(Full(0), Held(1, 0), DropTest))
  {
    BothBegin();
    FirstActs(Block(2, 0, 0, 0, NOBODY, NOBODY), DropLock);
    LeadsOn(PAIR, Contended(Full(0), Held(2, NOBODY), DropLock), Contended(Full(0), Held(2, 0), DropSub));
    FirstActs(Block(2, 0, 0, 0, 0, NOBODY), DropSub);
    LeadsOn(PAIR, Contended(Full(0), Held(2, 0), DropSub), Contended(Full(0), Held(1, 0), DropTest));
  }

  lemma FirstLeavesOne(s: State)
    requires s == Contended(Full(0), Held(1, 0), DropTest)
    ensures Leads(s, Lasting(Full(0), Block(1, 0, 0, 0, NOBODY, NOBODY), DropLock))
  {
    FirstActs(Block(1, 0, 0, 0, 0, NOBODY), DropTest);
    LeadsNowhere(s);
    LeadsOn(s, s, Contended(Full(0), Held(1, 0), DropClear));
    FirstClears();
    LeadsOn(s, Contended(Full(0), Held(1, 0), DropClear), Contended(NOT_YET, Held(1, 0), DropUnlock));
    FirstEnds();
    LeadsOn(s, Contended(NOT_YET, Held(1, 0), DropUnlock),
            Lasting(Full(0), Block(1, 0, 0, 0, NOBODY, NOBODY), DropLock));
  }

  lemma LastLeads(s: State, b: Block, stage: Stage)
    requires stage == DropLock || (ChangesBlock(stage) && stage != ShareAdd && stage != TakeAdd && stage != TakeSub)
    requires (stage == DropLock ==> b.holder == NOBODY) && Leads(s, Lasting(Full(0), b, stage))
    ensures Leads(s, Lasting(Full(0), BlockAfter(b, stage, 1), StageAfter(b, stage)))
  {
    LastActs(b, stage);
    LeadsOn(s, Lasting(Full(0), b, stage), Lasting(Full(0), BlockAfter(b, stage, 1), StageAfter(b, stage)));
  }

  lemma LastCountsDown(s: State)
    requires Leads(s, Lasting(Full(0), Block(1, 0, 0, 0, NOBODY, NOBODY), DropLock))
    ensures Leads(s, Lasting(Full(0), Block(0, 0, 0, 0, 1, NOBODY), FreePayload))
  {
    LastLeads(s, Block(1, 0, 0, 0, NOBODY, NOBODY), DropLock);
    LastLeads(s, Block(1, 0, 0, 0, 1, NOBODY), DropSub);
    LastLeads(s, Block(0, 0, 0, 0, 1, NOBODY), DropTest);
  }

  lemma LastFreesParts(s: State)
    requires Leads(s, Lasting(Full(0), Block(0, 0, 0, 0, 1, NOBODY), FreePayload))
    ensures Leads(s, Lasting(Full(0), Block(0, 1, 1, 0, NOBODY, 1), FreeMutex))
  {
    LastLeads(s, Block(0, 0, 0, 0, 1, NOBODY), FreePayload);
    LastLeads(s, Block(0, 1, 0, 0, 1, NOBODY), FreeCounter);
    LastLeads(s, Block(0, 1, 1, 0, 1, NOBODY), UnlockFreed);
  }

  lemma LastFrees(s: State)
    requires Leads(s, Lasting(Full(0), Block(1, 0, 0, 0, NOBODY, NOBODY), DropLock))
    ensures Leads(s, FREED)
  {
    LastCountsDown(s);
    LastFreesParts(s);
    LastFreesMutex();
    LeadsOn(s, Lasting(Full(0), Block(0, 1, 1, 0, NOBODY, 1), FreeMutex),
            Lasting(Full(0).(mutex := NULL), Block(0, 1, 1, 1, NOBODY, 1), ClearFreed));
    LastEnds();
    LeadsOn(s, Lasting(Full(0).(mutex := NULL), Block(0, 1, 1, 1, NOBODY, 1), ClearFreed), FREED);
  }

  /**
   * From nothing to two handles of one block; then both are given up at once, the second process
   * held up at the mutex after the first has counted down, and the block ends freed once.
   */
  lemma ContentionOccurs() returns (waiting: State)
    ensures Leads(START, PAIR) && Leads(PAIR, waiting) && Leads(waiting, FREED)
    ensures waiting.jobs.Keys == {0, 1} && Sane(waiting, 1) && Step(waiting, 1) == waiting
    ensures waiting.blocks == Held(1, 0) && Refs(waiting.handles, 0) == {0, 1}
  {
    waiting := Contended(Full(0), Held(1, 0), DropTest);
    PairIsReached();
    FirstGetsAhead();
    SecondWaits();
    FirstLeavesOne(waiting);
    LastFrees(waiting);
  }
}
