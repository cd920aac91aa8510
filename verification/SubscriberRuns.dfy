/**
 * A subscriber reading a ring that publishers keep pushing to. Each step of the reader is one
 * section under the ring's lock (or one on the subscriber's own data); pushes may fall between
 * any two of them.
 */
module SubscriberRuns {
  import opened SharedRing

  /**
   * Where spin_once has got to: before the first head() of is_ready_, between its two head()
   * calls, before its tail(), before the copy of invoke_, before spin_.
   */
  datatype Pc = AtHead | AtClamp | AtTail | AtCopy | AtSpin

  /** One message taken by invoke_: its log position, and whether the window had moved past idx. */
  datatype Taken = Taken(pos: nat, overrun: bool)

  /** `clamped` records that some read was not at the index the reader had reached. */
  datatype Reader<T> = Reader(
    idx: nat, pc: Pc, local: seq<T>,
    callbacks: seq<T>, taken: seq<Taken>, clamped: bool)

  /** A ring of n slots with its push log, and a subscriber with a local buffer of bs entries. */
  datatype System<T> = System(n: nat, bs: nat, start: nat, log: seq<T>, r: Reader<T>)

  function Head<T>(s: System<T>): nat
    requires s.n > 0
  {
    HeadOf(s.n, |s.log|)
  }

  /** connecte_to_ starts the reader at the current tail. */
  function Connect<T>(n: nat, bs: nat, log: seq<T>): System<T> {
    System(n, bs, |log|, log, Reader(|log|, AtHead, [], [], [], false))
  }

  predicate Ready<T>(s: System<T>) {
    s.n > 0 && (s.r.pc == AtCopy ==> s.r.idx < |s.log|)
  }

  function KeepLast<T>(local: seq<T>, bs: nat): seq<T> {
    if |local| > bs then local[1..] else local
  }

  function ReaderStep<T>(s: System<T>): System<T>
    requires Ready(s)
  {
    var r := s.r;
    match r.pc
    case AtHead => s.(r := r.(pc := if r.idx < Head(s) then AtClamp else AtTail))
    case AtClamp => s.(r := r.(idx := Head(s), pc := AtTail, clamped := true))
    case AtTail => s.(r := r.(pc := if r.idx < |s.log| then AtCopy else AtSpin))
    case AtCopy =>
      var pos := ReadPosition(s.n, |s.log|, r.idx);
      var overrun := r.idx < Head(s);
      s.(r := r.(idx := r.idx + 1, pc := AtSpin,
                 local := KeepLast(r.local + [s.log[pos]], s.bs),
                 taken := r.taken + [Taken(pos, overrun)],
                 clamped := r.clamped || pos != r.idx))
    case AtSpin =>
      if r.local == [] then s.(r := r.(pc := AtHead))
      else s.(r := r.(pc := AtHead, callbacks := r.callbacks + [r.local[0]], local := r.local[1..]))
  }

  function Publish<T>(s: System<T>, v: T): System<T> {
    s.(log := s.log + [v])
  }

  ghost predicate Next<T(!new)>(s: System<T>, t: System<T>) {
    Ready(s) && (t == ReaderStep(s) || exists v :: t == Publish(s, v))
  }

  ghost predicate Trace<T(!new)>(tr: seq<System<T>>) {
    && |tr| > 0 && tr[0].n > 0
    && tr[0] == Connect(tr[0].n, tr[0].bs, tr[0].log)
    && forall i | 0 <= i < |tr| - 1 :: Next(tr[i], tr[i + 1])
  }

  // ---------------------------------------------------------------- invariant

  /** The first index from which the message after one taken at pos would be new. */
  function Beyond(n: nat, t: Taken): nat {
    if t.overrun && n > 1 then t.pos else t.pos + 1
  }

  function Values<T>(log: seq<T>, taken: seq<Taken>): seq<T>
    requires forall j | 0 <= j < |taken| :: taken[j].pos < |log|
  {
    seq(|taken|, j requires 0 <= j < |taken| => log[taken[j].pos])
  }

  /**
   * Positions never go back. One is taken a second time only by the very next take, and only if
   * the window overran the reader at the first and not at the second; never a third time.
   */
  ghost predicate Ordered(taken: seq<Taken>) {
    forall j, k | 0 <= j < k < |taken| ::
      && taken[j].pos <= taken[k].pos
      && (taken[j].pos == taken[k].pos ==> k == j + 1 && taken[j].overrun && !taken[k].overrun)
  }

  /** How far the reader's index must have come since the last message it took. */
  ghost predicate IndexCaughtUp<T>(s: System<T>)
    requires s.n > 0
  {
    s.r.taken != [] ==>
      var t := s.r.taken[|s.r.taken| - 1];
      && (t.overrun ==> Beyond(s.n, t) <= Head(s))
      && (!t.overrun || s.r.pc == AtTail || s.r.pc == AtCopy ==> Beyond(s.n, t) <= s.r.idx)
  }

  ghost predicate Contiguous(taken: seq<Taken>, start: nat) {
    forall j | 0 <= j < |taken| :: taken[j].pos == start + j
  }

  ghost predicate PositionsInv<T>(s: System<T>) {
    && Ready(s) && s.start <= s.r.idx <= |s.log|
    && (forall j | 0 <= j < |s.r.taken| :: s.start <= s.r.taken[j].pos < |s.log|)
    && Ordered(s.r.taken) && IndexCaughtUp(s)
    && (s.r.pc == AtClamp ==> s.r.idx < Head(s))
    && s.start + |s.r.taken| <= s.r.idx
    && (!s.r.clamped <==> s.r.idx == s.start + |s.r.taken| && Contiguous(s.r.taken, s.start))
  }

  /** What has been called back, and what waits in the local buffer, is what was taken. */
  ghost predicate ValuesInv<T>(s: System<T>)
    requires forall j | 0 <= j < |s.r.taken| :: s.r.taken[j].pos < |s.log|
  {
    && |s.r.local| <= 1 && (s.r.pc != AtSpin ==> s.r.local == [])
    && s.r.callbacks + s.r.local == if s.bs == 0 then [] else Values(s.log, s.r.taken)
  }

  ghost predicate Inv<T>(s: System<T>) {
    PositionsInv(s) && ValuesInv(s)
  }

  lemma PublishKeepsPositions<T>(s: System<T>, v: T)
    requires PositionsInv(s)
    ensures PositionsInv(Publish(s, v))
  {
    assert Head(s) <= Head(Publish(s, v));
  }

  lemma PublishKeepsInv<T>(s: System<T>, v: T)
    requires Inv(s)
    ensures Inv(Publish(s, v))
  {
    PublishKeepsPositions(s, v);
    assert Values(Publish(s, v).log, s.r.taken) == Values(s.log, s.r.taken);
  }

  lemma ContiguousAppend(taken: seq<Taken>, u: Taken, start: nat)
    ensures Contiguous(taken + [u], start) <==> Contiguous(taken, start) && u.pos == start + |taken|
  {
    var longer := taken + [u];
    assert longer[|taken|] == u;
    assert forall j | 0 <= j < |taken| :: longer[j] == taken[j];
  }

  lemma OrderedAppend(taken: seq<Taken>, u: Taken)
    requires Ordered(taken)
    requires taken != [] ==>
      var t := taken[|taken| - 1];
      t.pos <= u.pos && (t.pos == u.pos ==> t.overrun && !u.overrun)
    ensures Ordered(taken + [u])
  {
    var longer := taken + [u];
    forall j, k | 0 <= j < k < |longer|
      ensures longer[j].pos <= longer[k].pos
      ensures longer[j].pos == longer[k].pos ==> k == j + 1 && longer[j].overrun && !longer[k].overrun
    {
      if k == |taken| && j < k - 1 {
        assert taken[j].pos <= taken[k - 1].pos;
      }
    }
  }

  /** The message a copy takes from s. */
  function TakenBy<T>(s: System<T>): Taken
    requires Ready(s) && s.r.pc == AtCopy
  {
    Taken(ReadPosition(s.n, |s.log|, s.r.idx), s.r.idx < Head(s))
  }

  lemma CopyIsInOrder<T>(s: System<T>)
    requires PositionsInv(s) && s.r.pc == AtCopy
    ensures Ordered(s.r.taken + [TakenBy(s)])
  {
    OrderedAppend(s.r.taken, TakenBy(s));
  }

  lemma CopyCatchesUp<T>(s: System<T>)
    requires PositionsInv(s) && s.r.pc == AtCopy
    ensures IndexCaughtUp(ReaderStep(s))
  {
    var taken := ReaderStep(s).r.taken;
    assert taken[|taken| - 1] == TakenBy(s);
  }

  lemma CopyKeepsPositions<T>(s: System<T>)
    requires PositionsInv(s) && s.r.pc == AtCopy
    ensures PositionsInv(ReaderStep(s))
  {
    assert ReaderStep(s).r.taken == s.r.taken + [TakenBy(s)];
    ContiguousAppend(s.r.taken, TakenBy(s), s.start);
    CopyIsInOrder(s);
    CopyCatchesUp(s);
  }

  /** The other steps take nothing. */
  lemma LookKeepsPositions<T>(s: System<T>)
    requires PositionsInv(s) && s.r.pc != AtCopy && s.r.pc != AtClamp
    ensures PositionsInv(ReaderStep(s))
  {
    var t := ReaderStep(s);
    assert t.r.taken == s.r.taken && t.log == s.log && Head(t) == Head(s);
    if s.r.taken != [] && t.r.pc == AtTail {
      assert Beyond(s.n, s.r.taken[|s.r.taken| - 1]) <= t.r.idx;
    }
  }

  lemma ClampKeepsPositions<T>(s: System<T>)
    requires PositionsInv(s) && s.r.pc == AtClamp
    ensures PositionsInv(ReaderStep(s))
  {
    assert ReaderStep(s).r.taken == s.r.taken && ReaderStep(s).log == s.log;
  }

  lemma StepKeepsPositions<T>(s: System<T>)
    requires PositionsInv(s)
    ensures PositionsInv(ReaderStep(s))
  {
    if s.r.pc == AtCopy {
      CopyKeepsPositions(s);
    } else if s.r.pc == AtClamp {
      ClampKeepsPositions(s);
    } else {
      LookKeepsPositions(s);
    }
  }

  lemma CopyKeepsValues<T>(s: System<T>)
    requires Ready(s) && s.r.pc == AtCopy && |s.r.local| == 0
    requires forall j | 0 <= j < |s.r.taken| :: s.r.taken[j].pos < |s.log|
    requires s.r.callbacks == if s.bs == 0 then [] else Values(s.log, s.r.taken)
    ensures forall j | 0 <= j < |ReaderStep(s).r.taken| :: ReaderStep(s).r.taken[j].pos < |s.log|
    ensures ValuesInv(ReaderStep(s))
  {
    var t := ReaderStep(s);
    var v := s.log[ReadPosition(s.n, |s.log|, s.r.idx)];
    assert s.r.local + [v] == [v];
    assert Values(s.log, t.r.taken) == Values(s.log, s.r.taken) + [v];
  }

  lemma StepKeepsValues<T>(s: System<T>)
    requires Inv(s) && PositionsInv(ReaderStep(s))
    ensures ValuesInv(ReaderStep(s))
  {
    if s.r.pc == AtCopy {
      assert s.r.callbacks + s.r.local == s.r.callbacks;
      CopyKeepsValues(s);
    } else if s.r.pc == AtSpin {
      SpinMovesOne(s.r.callbacks, s.r.local);
    }
  }

  lemma SpinMovesOne<T>(callbacks: seq<T>, local: seq<T>)
    ensures local != [] ==> callbacks + [local[0]] + local[1..] == callbacks + local
  {
  }

  lemma StepKeepsInv<T>(s: System<T>)
    requires Inv(s)
    ensures Inv(ReaderStep(s))
  {
    StepKeepsPositions(s);
    StepKeepsValues(s);
  }

  // ---------------------------------------------------------------- whole runs

  lemma {:induction false} TraceKeepsInv<T(!new)>(tr: seq<System<T>>, i: nat)
    requires Trace(tr) && i < |tr|
    ensures Inv(tr[i])
    ensures tr[i].n == tr[0].n && tr[i].bs == tr[0].bs && tr[i].start == |tr[0].log|
  {
    if i > 0 {
      TraceKeepsInv(tr, i - 1);
      var s, t := tr[i - 1], tr[i];
      assert Next(tr[i - 1], tr[i - 1 + 1]);
      if t == ReaderStep(s) {
        StepKeepsInv(s);
      } else {
        var v :| t == Publish(s, v);
        PublishKeepsInv(s, v);
      }
    }
  }

  /**
   * Under any interleaving: nothing published before the connection is taken, positions never go
   * back, a message is repeated only after an overrun, and none is taken three times.
   */
  lemma DeliveryOrder<T(!new)>(tr: seq<System<T>>, i: nat)
    requires Trace(tr) && i < |tr|
    ensures Ordered(tr[i].r.taken)
    ensures forall j | 0 <= j < |tr[i].r.taken| :: |tr[0].log| <= tr[i].r.taken[j].pos < |tr[i].log|
  {
    TraceKeepsInv(tr, i);
  }

  /**
   * Between two rounds of spin_once the callback has been given every message taken, in order,
   * provided the local buffer has room for one; with room for none it is never called.
   */
  lemma CallbacksAreTheTaken<T(!new)>(tr: seq<System<T>>, i: nat)
    requires Trace(tr) && i < |tr| && tr[i].r.pc == AtHead
    ensures forall j | 0 <= j < |tr[i].r.taken| :: tr[i].r.taken[j].pos < |tr[i].log|
    ensures tr[i].r.callbacks == if tr[i].bs == 0 then [] else Values(tr[i].log, tr[i].r.taken)
  {
    TraceKeepsInv(tr, i);
  }

  /** Reader steps to the end of the current turn of spin_once, at most. */
  function StepsLeft(pc: Pc): nat {
    match pc
    case AtHead => 5
    case AtClamp => 4
    case AtTail => 3
    case AtCopy => 2
    case AtSpin => 1
  }

  /** A turn that began with `count` messages taken and one to take, and what it has done so far. */
  predicate InTurn<T>(s: System<T>, count: nat) {
    if s.r.pc == AtSpin then |s.r.taken| == count + 1
    else |s.r.taken| == count && s.r.idx < |s.log|
  }

  /**
   * Whatever is published meanwhile, a turn begun with a message to take ends after at most five
   * reader steps and has taken exactly one.
   */
  lemma TurnTakesOne<T>(s: System<T>, count: nat)
    requires Inv(s) && s.n >= 2 && InTurn(s, count)
    ensures forall v :: InTurn(Publish(s, v), count)
    ensures var t := ReaderStep(s);
            if t.r.pc == AtHead then s.r.pc == AtSpin && |t.r.taken| == count + 1
            else InTurn(t, count) && StepsLeft(t.r.pc) < StepsLeft(s.r.pc)
  {
  }

  /** The reader is never more messages behind than the ring can hold. */
  ghost predicate NeverLags<T(!new)>(tr: seq<System<T>>) {
    forall i | 0 <= i < |tr| :: |tr[i].log| - tr[i].r.idx <= tr[i].n - 1
  }

  lemma NoLagStep<T>(s: System<T>)
    requires Ready(s) && s.r.idx <= |s.log| <= s.r.idx + s.n - 1 && !s.r.clamped
    requires s.r.pc == AtClamp ==> s.r.idx < Head(s)
    ensures !ReaderStep(s).r.clamped
  {
    assert Head(s) <= s.r.idx;
  }

  lemma NoLagNext<T(!new)>(s: System<T>, u: System<T>)
    requires Inv(s) && |s.log| <= s.r.idx + s.n - 1 && !s.r.clamped && Next(s, u)
    ensures !u.r.clamped
  {
    NoLagStep(s);
  }

  ghost predicate OnTime<T(!new)>(tr: seq<System<T>>, k: nat)
    requires k + 1 < |tr|
  {
    Inv(tr[k]) && |tr[k].log| <= tr[k].r.idx + tr[k].n - 1 && Next(tr[k], tr[k + 1])
  }

  lemma IsOnTime<T(!new)>(tr: seq<System<T>>, k: nat)
    requires Trace(tr) && NeverLags(tr) && k + 1 < |tr|
    ensures OnTime(tr, k)
  {
    TraceKeepsInv(tr, k);
  }

  lemma {:induction false} OnTimeNoClamp<T(!new)>(tr: seq<System<T>>, i: nat)
    requires i < |tr| && !tr[0].r.clamped && forall k | 0 <= k < i :: OnTime(tr, k)
    ensures !tr[i].r.clamped
  {
    if i > 0 {
      OnTimeNoClamp(tr, i - 1);
      assert OnTime(tr, i - 1);
      NoLagNext(tr[i - 1], tr[i]);
    }
  }

  lemma NoLagNoClamp<T(!new)>(tr: seq<System<T>>, i: nat)
    requires Trace(tr) && NeverLags(tr) && i < |tr|
    ensures !tr[i].r.clamped
  {
    forall k | 0 <= k < i
      ensures OnTime(tr, k)
    {
      IsOnTime(tr, k);
    }
    OnTimeNoClamp(tr, i);
  }

  // ---------------------------------------------------------------- when messages are lost

  /** How many messages behind a read may be made; the slot of a ring of one still holds the last. */
  function Room(n: nat, pc: Pc): int {
    if n == 1 && pc == AtCopy then 1 else n - 1
  }

  /** The reader is about to look into the ring, and publishers are further ahead than it holds. */
  predicate ReadsLate<T>(s: System<T>) {
    (s.r.pc == AtClamp || s.r.pc == AtCopy) && |s.log| - s.r.idx > Room(s.n, s.r.pc)
  }

  ghost predicate LateAt<T(!new)>(tr: seq<System<T>>, j: nat)
    requires j + 1 < |tr| && Ready(tr[j])
  {
    ReadsLate(tr[j]) && tr[j + 1] == ReaderStep(tr[j])
  }

  /** Some read before state i was made too far behind. */
  ghost predicate Overtaken<T(!new)>(tr: seq<System<T>>, i: nat)
    requires i < |tr| && forall j | 0 <= j < i :: Ready(tr[j])
  {
    exists j :: 0 <= j < i && LateAt(tr, j)
  }

  lemma TraceIsReady<T(!new)>(tr: seq<System<T>>, i: nat)
    requires Trace(tr) && i < |tr|
    ensures forall j | 0 <= j < i :: Ready(tr[j])
  {
    forall j | 0 <= j < i
      ensures Ready(tr[j])
    {
      assert Next(tr[j], tr[j + 1]);
    }
  }

  predicate ClampIsDue<T>(s: System<T>) {
    Ready(s) && (s.r.pc == AtClamp ==> s.r.idx < Head(s))
  }

  lemma TraceClampIsDue<T(!new)>(tr: seq<System<T>>, i: nat)
    requires Trace(tr) && i < |tr|
    ensures ClampIsDue(tr[i])
  {
    TraceKeepsInv(tr, i);
  }

  lemma LateStep<T>(s: System<T>)
    requires ClampIsDue(s)
    ensures ReaderStep(s).r.clamped <==> s.r.clamped || ReadsLate(s)
  {
  }

  lemma OvertakenNext<T(!new)>(tr: seq<System<T>>, i: nat)
    requires i + 1 < |tr| && forall j | 0 <= j <= i :: Ready(tr[j])
    ensures Overtaken(tr, i + 1) <==> Overtaken(tr, i) || LateAt(tr, i)
  {
    if Overtaken(tr, i) {
      var j :| 0 <= j < i && LateAt(tr, j);
      assert 0 <= j < i + 1 && LateAt(tr, j);
    }
  }

  lemma ClampedNext<T(!new)>(tr: seq<System<T>>, i: nat)
    requires i + 1 < |tr| && Next(tr[i], tr[i + 1]) && ClampIsDue(tr[i])
    ensures tr[i + 1].r.clamped <==> tr[i].r.clamped || LateAt(tr, i)
  {
    var s, t := tr[i], tr[i + 1];
    LateStep(s);
    if t != ReaderStep(s) {
      var v :| t == Publish(s, v);
    }
  }

  lemma {:induction false} ClampedIffOvertaken<T(!new)>(tr: seq<System<T>>, i: nat)
    requires Trace(tr) && i < |tr|
    ensures forall j | 0 <= j < i :: Ready(tr[j])
    ensures tr[i].r.clamped <==> Overtaken(tr, i)
  {
    TraceIsReady(tr, i);
    if i > 0 {
      ClampedIffOvertaken(tr, i - 1);
      TraceClampIsDue(tr, i - 1);
      assert Next(tr[i - 1], tr[i - 1 + 1]);
      ClampedNext(tr, i - 1);
      OvertakenNext(tr, i - 1);
    }
  }

  /** In a ring of two slots or more a late read shows: what is taken next is not what was next. */
  ghost predicate OutOfLine<T>(s: System<T>) {
    || !Contiguous(s.r.taken, s.start)
    || ((s.r.pc == AtTail || s.r.pc == AtCopy) && s.start + |s.r.taken| < s.r.idx < |s.log|)
  }

  lemma OutOfLineStep<T>(s: System<T>)
    requires PositionsInv(s) && s.n >= 2 && (s.r.clamped ==> OutOfLine(s))
    ensures ReaderStep(s).r.clamped ==> OutOfLine(ReaderStep(s))
  {
    if s.r.pc == AtCopy {
      ContiguousAppend(s.r.taken, TakenBy(s), s.start);
    }
  }

  lemma {:induction false} ClampedIsOutOfLine<T(!new)>(tr: seq<System<T>>, i: nat)
    requires Trace(tr) && i < |tr| && tr[0].n >= 2
    ensures tr[i].r.clamped ==> OutOfLine(tr[i])
  {
    if i > 0 {
      ClampedIsOutOfLine(tr, i - 1);
      TraceKeepsInv(tr, i - 1);
      var s, t := tr[i - 1], tr[i];
      assert Next(tr[i - 1], tr[i - 1 + 1]);
      if t == ReaderStep(s) {
        OutOfLineStep(s);
      } else {
        var v :| t == Publish(s, v);
      }
    }
  }

  ghost predicate Distinct<T>(log: seq<T>) {
    forall j, k | 0 <= j < k < |log| :: log[j] != log[k]
  }

  /** Among distinct messages the values taken are a run of the log just when the positions are. */
  lemma RunOfValues<T>(log: seq<T>, taken: seq<Taken>, start: nat)
    requires forall j | 0 <= j < |taken| :: taken[j].pos < |log|
    requires start + |taken| <= |log|
    ensures Contiguous(taken, start) ==> Values(log, taken) == log[start..start + |taken|]
    ensures Distinct(log) && Values(log, taken) == log[start..start + |taken|] ==> Contiguous(taken, start)
  {
    if Distinct(log) && Values(log, taken) == log[start..start + |taken|] {
      forall j | 0 <= j < |taken|
        ensures taken[j].pos == start + j
      {
        assert log[taken[j].pos] == Values(log, taken)[j] == log[start + j];
      }
    }
  }

  /**
   * Between two rounds of spin_once: every message from the connection on that the reader is past
   * has been taken once and in order if and only if no read was made too far behind. The callbacks
   * are then exactly those messages, and among distinct messages only then. Never lagging more than
   * n - 1 messages behind is enough.
   */
  lemma LosslessIffNeverOvertaken<T(!new)>(tr: seq<System<T>>, i: nat)
    requires Trace(tr) && i < |tr| && tr[i].r.pc == AtHead && tr[i].bs >= 1
    ensures (forall j | 0 <= j < i :: Ready(tr[j])) && |tr[0].log| <= tr[i].r.idx <= |tr[i].log|
    ensures !Overtaken(tr, i) <==>
            |tr[0].log| + |tr[i].r.taken| == tr[i].r.idx && Contiguous(tr[i].r.taken, |tr[0].log|)
    ensures !Overtaken(tr, i) ==> tr[i].r.callbacks == tr[i].log[|tr[0].log|..tr[i].r.idx]
    ensures Distinct(tr[i].log) && tr[i].r.callbacks == tr[i].log[|tr[0].log|..tr[i].r.idx] ==> !Overtaken(tr, i)
    ensures NeverLags(tr) ==> !Overtaken(tr, i)
  {
    TraceKeepsInv(tr, i);
    ClampedIffOvertaken(tr, i);
    var s := tr[i];
    RunOfValues(s.log, s.r.taken, s.start);
    assert s.r.callbacks == Values(s.log, s.r.taken);
    if NeverLags(tr) {
      NoLagNoClamp(tr, i);
    }
    if s.r.callbacks == s.log[s.start..s.r.idx] {
      assert |s.r.callbacks| == |s.r.taken|;
    }
  }

  /**
   * With two slots or more, a late read leaves a mark on the callbacks themselves: among distinct
   * messages they are some run of the log from the connection on if and only if there was none.
   */
  lemma CallbacksAreARunIff<T(!new)>(tr: seq<System<T>>, i: nat)
    requires Trace(tr) && i < |tr| && tr[i].r.pc == AtHead && tr[i].bs >= 1
    requires tr[0].n >= 2 && Distinct(tr[i].log)
    ensures forall j | 0 <= j < i :: Ready(tr[j])
    ensures |tr[0].log| + |tr[i].r.callbacks| <= |tr[i].log|
    ensures !Overtaken(tr, i) <==>
            tr[i].r.callbacks == tr[i].log[|tr[0].log|..|tr[0].log| + |tr[i].r.callbacks|]
  {
    TraceKeepsInv(tr, i);
    ClampedIffOvertaken(tr, i);
    ClampedIsOutOfLine(tr, i);
    var s := tr[i];
    RunOfValues(s.log, s.r.taken, s.start);
    assert s.r.callbacks == Values(s.log, s.r.taken);
  }
}
